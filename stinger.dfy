/**
 * `stinger`: every vertex owns a chain of edge blocks per direction, each
 * block holding `NUM_EDGES_PER_BLOCK` slots and a high-water mark.  An
 * insert first looks for the neighbour below the high-water mark of every
 * block; failing that it claims the first free slot in chain order, and
 * it appends a fresh block at the tail only when every block is full.
 *
 * Blocks are values here and a chain is the sequence of its blocks in
 * `next` order (a missing chain, the null head, is the empty sequence).
 * The full/empty-bit locks and atomic adds are plain reads and writes,
 * since the model applies a batch's edges one after the other.
 */
module Stinger {
  import opened Types
  import NL = NeighborList
  import PC = AdListPerChunk
  import S = AdListShared
  import D = DataStruc

  /** `NUM_EDGES_PER_BLOCK`. */
  const NumEdgesPerBlock: int := 16

  /** `stinger_edge`: a slot of a block. */
  datatype StingerEdge = StingerEdge(neighbor: int, weight: int, timeFirst: int)

  /** `stinger_edge()`: a free slot, neighbour -1, weight -1, timeFirst 0. */
  const EmptySlot: StingerEdge := StingerEdge(-1, -1, 0)

  /** `stinger_edge(e, source)`: the neighbour one side of e records, with e's weight. */
  function EdgeFor(e: Edge, source: bool): (se: StingerEdge)
    ensures se.neighbor == (if source then e.destination else e.source)
    ensures se.weight == e.weight && se.timeFirst == 0
  {
    StingerEdge(if source then e.destination else e.source, e.weight, 0)
  }

  /** `stinger_eb`: the owning vertex, the number of edges, the high-water mark and the slots. */
  datatype Block = Block(node: int, numEdges: int, high: int, edges: seq<StingerEdge>)

  /** `stinger_eb(n)`: no edge, high-water mark -1, every slot free. */
  function NewBlock(n: int): (b: Block)
    ensures BlockOk(b, n) && BlockLive(b) == []
  {
    Block(n, 0, -1, seq(NumEdgesPerBlock, _ => EmptySlot))
  }

  /** `stinger_vertex`: both degrees and both chains. */
  datatype Vertex = Vertex(node: int, inDegree: int, outDegree: int, ins: seq<Block>, outs: seq<Block>)

  /**
   * `update_edge_data(eb, index, n, w)`: the slot takes weight w; when it
   * was free (no neighbour, or at or above the high-water mark) it also
   * takes neighbour n, the block counts one more edge and the mark rises
   * past the slot.  The flag says whether a new edge was registered, which
   * is when the owner's degree goes up.
   */
  function UpdateEdgeData(b: Block, index: int, n: int, w: int): (r: (Block, bool))
    requires 0 <= index < |b.edges|
    ensures r.1 <==> b.edges[index].neighbor < 0 || index >= b.high
    ensures r.0.node == b.node && |r.0.edges| == |b.edges|
    ensures r.0.edges[index].weight == w
    ensures r.0.edges[index].neighbor == (if r.1 then n else b.edges[index].neighbor)
    ensures forall k :: 0 <= k < |b.edges| && k != index ==> r.0.edges[k] == b.edges[k]
    ensures r.0.numEdges == b.numEdges + (if r.1 then 1 else 0)
    ensures r.0.high == (if index >= b.high then index + 1 else b.high)
  {
    var s := b.edges[index];
    if s.neighbor < 0 || index >= b.high then
      (b.(edges := b.edges[index := s.(neighbor := n, weight := w)],
          numEdges := b.numEdges + 1,
          high := if index >= b.high then index + 1 else b.high), true)
    else
      (b.(edges := b.edges[index := s.(weight := w)]), false)
  }

  /**
   * A block as insertion leaves it: 16 slots, of which the first `numEdges`
   * hold real neighbours, and the high-water mark at `numEdges` (-1 while
   * the block is empty).
   */
  ghost predicate BlockOk(b: Block, owner: int)
  {
    && b.node == owner && |b.edges| == NumEdgesPerBlock
    && 0 <= b.numEdges <= NumEdgesPerBlock
    && b.high == (if b.numEdges == 0 then -1 else b.numEdges)
    && (forall k :: 0 <= k < b.numEdges ==> b.edges[k].neighbor >= 0)
  }

  /** The neighbours a block holds, as the traversal reads them: slots 0 up to `numEdges`. */
  function BlockLive(b: Block): NL.List
  {
    var n := if 0 <= b.numEdges <= |b.edges| then b.numEdges else 0;
    seq(n, k requires 0 <= k < n => NodeWeight(b.edges[k].neighbor, b.edges[k].weight))
  }

  /** The neighbours of a chain, block after block. */
  function Live(c: seq<Block>): NL.List
  {
    if |c| == 0 then [] else Live(c[..|c| - 1]) + BlockLive(c[|c| - 1])
  }

  /** The sum of `numEdges` over a chain. */
  function SumEdges(c: seq<Block>): int
  {
    if |c| == 0 then 0 else SumEdges(c[..|c| - 1]) + c[|c| - 1].numEdges
  }

  /**
   * A chain as insertion leaves it: at least one block, every block valid,
   * every block before the tail full, and no neighbour twice.
   */
  ghost predicate ChainOk(c: seq<Block>, owner: int)
  {
    && |c| >= 1
    && (forall j :: 0 <= j < |c| ==> BlockOk(c[j], owner))
    && (forall j :: 0 <= j < |c| - 1 ==> c[j].numEdges == NumEdgesPerBlock)
    && (|c| > 1 ==> c[|c| - 1].numEdges > 0)
    && NL.DistinctIds(Live(c))
  }

  /** A fresh block is a valid empty block of its vertex, and its slots are the default slot. */
  lemma NewBlockEmpty(n: int)
    ensures BlockOk(NewBlock(n), n) && BlockLive(NewBlock(n)) == []
    ensures forall k :: 0 <= k < NumEdgesPerBlock ==> NewBlock(n).edges[k] == EmptySlot
    ensures ChainOk([NewBlock(n)], n) && Live([NewBlock(n)]) == []
  {
    assert [NewBlock(n)][..0] == [];
  }

  lemma {:induction false} LiveAppend(a: seq<Block>, b: seq<Block>)
    ensures Live(a + b) == Live(a) + Live(b)
    decreases |b|
  {
    if |b| == 0 {
      assert a + b == a;
    } else {
      var ab := a + b;
      var init := b[..|b| - 1];
      var t := BlockLive(b[|b| - 1]);
      assert ab[..|ab| - 1] == a + init;
      assert ab[|ab| - 1] == b[|b| - 1];
      LiveAppend(a, init);
      assert Live(ab) == Live(a + init) + t;
      assert Live(b) == Live(init) + t;
      assert Live(a) + Live(init) + t == Live(a) + (Live(init) + t);
    }
  }

  /** A neighbour none of a chain's blocks holds is not in the chain's list. */
  lemma {:induction false} AbsentFromChain(c: seq<Block>, d: int)
    requires forall j :: 0 <= j < |c| ==> !NL.Has(BlockLive(c[j]), d)
    ensures !NL.Has(Live(c), d)
  {
    if |c| > 0 {
      var init := c[..|c| - 1];
      forall j | 0 <= j < |init| ensures !NL.Has(BlockLive(init[j]), d) {
        assert init[j] == c[j];
      }
      AbsentFromChain(init, d);
      NL.HasConcat(Live(init), BlockLive(c[|c| - 1]), d);
    }
  }

  /** The length of a chain's neighbour list is the sum of its blocks' edge counts. */
  lemma {:induction false} LiveLength(c: seq<Block>)
    requires forall j :: 0 <= j < |c| ==> 0 <= c[j].numEdges <= |c[j].edges|
    ensures |Live(c)| == SumEdges(c)
  {
    if |c| > 0 {
      LiveLength(c[..|c| - 1]);
    }
  }

  /** A valid chain never holds the free-slot id -1. */
  lemma {:induction false} ChainReal(c: seq<Block>, owner: int)
    requires ChainOk(c, owner)
    ensures !NL.Has(Live(c), -1)
  {
    forall j | 0 <= j < |c| ensures !NL.Has(BlockLive(c[j]), -1) {
      forall k | 0 <= k < |BlockLive(c[j])| ensures BlockLive(c[j])[k].node != -1 {
        assert c[j].edges[k].neighbor >= 0;
      }
    }
    AbsentFromChain(c, -1);
  }

  /** A chain none of whose live slots holds d does not hold d. */
  lemma {:induction false} NotInChain(c: seq<Block>, owner: int, d: int)
    requires ChainOk(c, owner)
    requires forall j, k :: 0 <= j < |c| && 0 <= k < c[j].numEdges ==> c[j].edges[k].neighbor != d
    ensures !NL.Has(Live(c), d)
  {
    forall j | 0 <= j < |c| ensures !NL.Has(BlockLive(c[j]), d) {
      forall k | 0 <= k < |BlockLive(c[j])| ensures BlockLive(c[j])[k].node != d {
        assert BlockLive(c[j])[k].node == c[j].edges[k].neighbor;
      }
    }
    AbsentFromChain(c, d);
  }

  /** Block i's neighbours sit in the chain's list right after those of the blocks before it. */
  lemma {:induction false} LiveAround(c: seq<Block>, i: nat, b: Block)
    requires i < |c|
    ensures Live(c[i := b]) == Live(c[..i]) + BlockLive(b) + Live(c[i + 1..])
  {
    var r := c[i := b];
    assert r == c[..i] + [b] + c[i + 1..];
    LiveAppend(c[..i] + [b], c[i + 1..]);
    LiveAppend(c[..i], [b]);
    assert [b][..0] == [];
  }

  /** Rewriting live slot k with its own neighbour changes only that entry's weight. */
  lemma RewriteSlot(b: Block, owner: int, k: nat, w: int)
    requires BlockOk(b, owner) && k < b.numEdges
    ensures k < |BlockLive(b)| && BlockLive(b)[k].node == b.edges[k].neighbor
    ensures var res := UpdateEdgeData(b, k, b.edges[k].neighbor, w);
            && !res.1 && BlockOk(res.0, owner) && res.0.numEdges == b.numEdges
            && BlockLive(res.0) == BlockLive(b)[k := NodeWeight(b.edges[k].neighbor, w)]
  {
  }

  /**
   * Entry k of block i is entry |Live(c[..i])| + k of the chain's list, and
   * a block that differs from block i in that entry alone changes the
   * chain's list there alone.
   */
  lemma {:induction false} LiveAt(c: seq<Block>, i: nat, k: nat, b: Block, x: NodeWeight)
    requires i < |c| && k < |BlockLive(c[i])| && BlockLive(b) == BlockLive(c[i])[k := x]
    ensures var q := |Live(c[..i])| + k;
            && q < |Live(c)| && Live(c)[q] == BlockLive(c[i])[k]
            && Live(c[i := b]) == Live(c)[q := x]
  {
    var a, m, z := Live(c[..i]), BlockLive(c[i]), Live(c[i + 1..]);
    LiveAround(c, i, c[i]);
    assert c[i := c[i]] == c;
    LiveAround(c, i, b);
    NL.UpdateInside(a, m, z, k, x);
  }

  /**
   * Re-inserting a neighbour found in live slot k of block i only rewrites
   * its weight: no new edge, the chain stays valid, and its list is
   * `adList`'s overwrite of the old list.
   */
  lemma {:induction false} FoundAt(c: seq<Block>, owner: int, i: nat, k: nat, w: int)
    requires ChainOk(c, owner) && i < |c| && k < c[i].numEdges
    ensures var res := UpdateEdgeData(c[i], k, c[i].edges[k].neighbor, w);
            var x := NodeWeight(c[i].edges[k].neighbor, w);
            && !res.1 && NL.Has(Live(c), x.node)
            && ChainOk(c[i := res.0], owner)
            && Live(c[i := res.0]) == NL.Overwritten(Live(c), x)
  {
    var d := c[i].edges[k].neighbor;
    var x := NodeWeight(d, w);
    RewriteSlot(c[i], owner, k, w);
    var b := UpdateEdgeData(c[i], k, d, w).0;
    LiveAt(c, i, k, b, x);
    var l := Live(c);
    var q := |Live(c[..i])| + k;
    assert BlockOk(c[i], owner) && NL.DistinctIds(l);
    assert l[q].node == d >= 0;
    NL.FirstWithDistinct(l, q);
    assert Live(c[i := b]) == l[q := x] == NL.Overwritten(l, x);
    NL.OverwriteKeepsDistinct(l, x);
    ReplaceBlock(c, owner, i, b);
  }

  /** A chain stays valid when a block is replaced by a valid one as full, and no id repeats. */
  lemma ReplaceBlock(c: seq<Block>, owner: int, i: nat, b: Block)
    requires ChainOk(c, owner) && i < |c| && BlockOk(b, owner) && b.numEdges == c[i].numEdges
    requires NL.DistinctIds(Live(c[i := b]))
    ensures ChainOk(c[i := b], owner)
  {
    var r := c[i := b];
    forall j | 0 <= j < |r| ensures BlockOk(r[j], owner) {
      if j != i {
        assert r[j] == c[j];
      }
    }
  }

  /**
   * A neighbour the chain lacks, with a free slot in the tail: it lands in
   * the tail's first free slot as a new edge, at the end of the chain's
   * list.
   */
  lemma {:induction false} ClaimTail(c: seq<Block>, owner: int, d: int, w: int)
    requires ChainOk(c, owner) && d >= 0 && !NL.Has(Live(c), d)
    requires c[|c| - 1].numEdges < NumEdgesPerBlock
    ensures var t := c[|c| - 1];
            var res := UpdateEdgeData(t, t.numEdges, d, w);
            && res.1
            && ChainOk(c[|c| - 1 := res.0], owner)
            && Live(c[|c| - 1 := res.0]) == Live(c) + [NodeWeight(d, w)]
  {
    var i := |c| - 1;
    var t := c[i];
    var x := NodeWeight(d, w);
    var res := UpdateEdgeData(t, t.numEdges, d, w);
    var b := res.0;
    var r := c[i := b];
    assert BlockLive(b) == BlockLive(t) + [x];
    assert r[..i] == c[..i];
    assert Live(r) == Live(c) + [x];
    forall j | 0 <= j < |r| ensures BlockOk(r[j], owner) {
      if j != i {
        assert r[j] == c[j];
      }
    }
    NL.OverwriteKeepsDistinct(Live(c), x);
  }

  /** A neighbour the chain lacks, with every block full: a new tail block holds it in slot 0. */
  lemma {:induction false} AppendBlock(c: seq<Block>, owner: int, d: int, w: int)
    requires ChainOk(c, owner) && d >= 0 && !NL.Has(Live(c), d)
    requires c[|c| - 1].numEdges == NumEdgesPerBlock
    ensures var res := UpdateEdgeData(NewBlock(owner), 0, d, w);
            && res.1
            && ChainOk(c + [res.0], owner)
            && Live(c + [res.0]) == Live(c) + [NodeWeight(d, w)]
  {
    var x := NodeWeight(d, w);
    var res := UpdateEdgeData(NewBlock(owner), 0, d, w);
    var r := c + [res.0];
    assert BlockLive(res.0) == [x];
    assert r[..|c|] == c;
    assert Live(r) == Live(c) + [x];
    NL.OverwriteKeepsDistinct(Live(c), x);
  }

  /**
   * The first pass of `search_and_insert_edge`: the first slot below some
   * block's high-water mark, in chain order, that holds d; or, when none
   * does, the assurance that no live slot holds d.
   */
  method FindNeighbor(c: seq<Block>, owner: int, d: int) returns (found: bool, i: nat, k: nat)
    requires ChainOk(c, owner)
    ensures found ==> i < |c| && k < c[i].numEdges && c[i].edges[k].neighbor == d
    ensures !found ==> forall j, k' :: 0 <= j < |c| && 0 <= k' < c[j].numEdges ==> c[j].edges[k'].neighbor != d
  {
    i := 0;
    while i < |c|
      invariant 0 <= i <= |c|
      invariant forall j, k' :: 0 <= j < i && 0 <= k' < c[j].numEdges ==> c[j].edges[k'].neighbor != d
    {
      var endk := c[i].high;
      k := 0;
      while k < endk
        invariant 0 <= k <= c[i].numEdges
        invariant forall k' :: 0 <= k' < k ==> c[i].edges[k'].neighbor != d
      {
        if d == c[i].edges[k].neighbor {
          return true, i, k;
        }
        k := k + 1;
      }
      i := i + 1;
    }
    return false, 0, 0;
  }

  /**
   * The second pass of `search_and_insert_edge`, for a neighbour no live
   * slot holds: the first slot, in chain order, whose neighbour is free or
   * that sits at or above its block's high-water mark.  On a valid chain
   * that is the tail's slot `numEdges`, and there is none when the tail is
   * full.
   */
  method FindFreeSlot(c: seq<Block>, owner: int, d: int) returns (found: bool, i: nat, k: nat)
    requires ChainOk(c, owner)
    requires forall j, k' :: 0 <= j < |c| && 0 <= k' < c[j].numEdges ==> c[j].edges[k'].neighbor != d
    ensures found <==> c[|c| - 1].numEdges < NumEdgesPerBlock
    ensures found ==> i == |c| - 1 && k == c[i].numEdges
  {
    i := 0;
    while i < |c|
      invariant 0 <= i <= |c|
      invariant forall j :: 0 <= j < i ==> c[j].numEdges == NumEdgesPerBlock
    {
      var endk := c[i].high;
      k := 0;
      while k < NumEdgesPerBlock
        invariant 0 <= k <= c[i].numEdges
      {
        var myNeighbor := c[i].edges[k].neighbor;
        if d == myNeighbor && k < endk {
          // The first pass saw every slot below the high-water mark.
          assert false;
        }
        if myNeighbor < 0 || k >= endk {
          // The re-check under the slot's lock reads the same slot and mark.
          return true, i, k;
        }
        k := k + 1;
      }
      i := i + 1;
    }
    return false, 0, 0;
  }

  /**
   * `search_and_insert_edge(e, source, eb, _)`: the chain afterwards is
   * valid and holds `adList`'s overwrite of its old list: a neighbour
   * already present gets the new weight in place, a missing one is
   * appended; `added` reports the new edge that raises the degree.
   */
  method SearchAndInsertEdge(c: seq<Block>, e: Edge, source: bool) returns (r: seq<Block>, added: bool)
    requires ChainOk(c, if source then e.source else e.destination) && EdgeFor(e, source).neighbor >= 0
    ensures ChainOk(r, if source then e.source else e.destination)
    ensures Live(r) == NL.Overwritten(Live(c), NodeWeight(EdgeFor(e, source).neighbor, e.weight))
    ensures added <==> !NL.Has(Live(c), EdgeFor(e, source).neighbor)
  {
    var owner := if source then e.source else e.destination;
    var edge := EdgeFor(e, source);
    var dest := edge.neighbor;
    var weight := edge.weight;
    var found, i, k := FindNeighbor(c, owner, dest);
    if found {
      FoundAt(c, owner, i, k, weight);
      var res := UpdateEdgeData(c[i], k, dest, weight);
      r := c[i := res.0];
      added := res.1;
      return;
    }
    NotInChain(c, owner, dest);
    found, i, k := FindFreeSlot(c, owner, dest);
    if found {
      ClaimTail(c, owner, dest, weight);
      var res := UpdateEdgeData(c[i], k, dest, weight);
      r := c[i := res.0];
      added := res.1;
    } else {
      // Every block is full: a new block at the tail.
      AppendBlock(c, owner, dest, weight);
      var res := UpdateEdgeData(NewBlock(owner), 0, dest, weight);
      r := c + [res.0];
      added := res.1;
    }
  }

  /**
   * A vertex as the container keeps it: both chains valid, each degree
   * counter the number of neighbours its chain lists, and no in-chain at
   * all on an undirected graph.
   */
  ghost predicate VertexOk(x: Vertex, v: int, directed: bool)
  {
    && x.node == v
    && ChainOk(x.outs, v) && x.outDegree == |Live(x.outs)|
    && (if directed then ChainOk(x.ins, v) && x.inDegree == |Live(x.ins)|
        else x.ins == [] && x.inDegree == 0)
  }

  /** `stinger_vertex(v)` with its first out-block, and its first in-block when directed: a valid vertex listing no neighbour. */
  function InitialVertex(v: int, directed: bool): (x: Vertex)
    ensures VertexOk(x, v, directed)
    ensures Live(x.outs) == [] && Live(x.ins) == []
  {
    NewBlockEmpty(v);
    Vertex(v, 0, 0, if directed then [NewBlock(v)] else [], [NewBlock(v)])
  }

  /** The out-neighbours of every vertex, as `out_neigh` lists them. */
  function OutLists(vs: seq<Vertex>): (r: seq<NL.List>)
    ensures |r| == |vs| && forall v :: 0 <= v < |vs| ==> r[v] == Live(vs[v].outs)
  {
    seq(|vs|, v requires 0 <= v < |vs| => Live(vs[v].outs))
  }

  /** The in-neighbours of every vertex of a directed graph. */
  function InLists(vs: seq<Vertex>): (r: seq<NL.List>)
    ensures |r| == |vs| && forall v :: 0 <= v < |vs| ==> r[v] == Live(vs[v].ins)
  {
    seq(|vs|, v requires 0 <= v < |vs| => Live(vs[v].ins))
  }

  /**
   * Inserting into a valid chain of a graph without deleted entries: the
   * chain's new list is the upsert `adListShared` makes, and the degree
   * counter, bumped when the edge is new, still counts the list.
   */
  lemma {:induction false} InsertCounts(c: seq<Block>, owner: int, r: seq<Block>, x: NodeWeight, added: bool)
    requires ChainOk(c, owner) && Live(r) == NL.Overwritten(Live(c), x) && (added <==> !NL.Has(Live(c), x.node))
    ensures Live(r) == NL.Upserted(Live(c), x)
    ensures |Live(r)| == |Live(c)| + (if added then 1 else 0)
  {
    ChainReal(c, owner);
    NL.UpsertedWithoutHoles(Live(c), x);
    NL.OverwrittenWrites(Live(c), x);
  }

  /**
   * The insertion `updateForVertex` makes into vertex v's out-chain (source
   * side, or any side when undirected) or in-chain: the chain's list gets
   * `adListShared`'s upsert with e's weight, the other chain is untouched,
   * and the vertex stays valid, its degree counter bumped for a new edge.
   */
  method InsertIntoVertex(x: Vertex, v: int, e: Edge, source: bool, directed: bool) returns (y: Vertex)
    requires VertexOk(x, v, directed) && v == (if source then e.source else e.destination)
    requires EdgeFor(e, source).neighbor >= 0
    ensures VertexOk(y, v, directed)
    ensures source || !directed ==>
              Live(y.outs) == NL.Upserted(Live(x.outs), NodeWeight(EdgeFor(e, source).neighbor, e.weight)) && y.ins == x.ins
    ensures !source && directed ==>
              Live(y.ins) == NL.Upserted(Live(x.ins), NodeWeight(EdgeFor(e, source).neighbor, e.weight)) && y.outs == x.outs
  {
    var nw := NodeWeight(EdgeFor(e, source).neighbor, e.weight);
    if source || (!source && !directed) {
      var r, added := SearchAndInsertEdge(x.outs, e, source);
      InsertCounts(x.outs, v, r, nw, added);
      y := x.(outs := r, outDegree := x.outDegree + (if added then 1 else 0));
    } else {
      var r, added := SearchAndInsertEdge(x.ins, e, source);
      InsertCounts(x.ins, v, r, nw, added);
      y := x.(ins := r, inDegree := x.inDegree + (if added then 1 else 0));
    }
  }

  /** Replacing vertex n replaces entry n of both list views and nothing else. */
  lemma ListsAfterSet(vs: seq<Vertex>, n: nat, y: Vertex)
    requires n < |vs|
    ensures OutLists(vs[n := y]) == OutLists(vs)[n := Live(y.outs)]
    ensures InLists(vs[n := y]) == InLists(vs)[n := Live(y.ins)]
  {
  }

  /** Replacing a vertex by a valid one keeps every vertex valid. */
  lemma VerticesAfterSet(vs: seq<Vertex>, n: nat, y: Vertex, ws: seq<Vertex>, directed: bool)
    requires n < |vs| && VertexOk(y, n, directed) && ws == vs[n := y]
    requires forall v :: 0 <= v < |vs| ==> VertexOk(vs[v], v, directed)
    ensures forall v :: 0 <= v < |ws| ==> VertexOk(ws[v], v, directed)
  {
    forall v | 0 <= v < |ws|
      ensures VertexOk(ws[v], v, directed)
    {
      if v != n {
        assert ws[v] == vs[v];
      }
    }
  }

  class Stinger {
    const weighted: bool
    const directed: bool
    /** `num_nodes_initialize`: the number of vertices, fixed at construction. */
    const numNodesInit: nat
    var numNodes: int
    var numEdges: int
    var property: seq<real>
    var affected: seq<bool>
    var vertices: seq<Vertex>

    /** Every initial vertex exists and is valid. */
    ghost predicate Valid()
      reads this
    {
      && |property| == numNodesInit && |affected| == numNodesInit && |vertices| == numNodesInit
      && forall v :: 0 <= v < |vertices| ==> VertexOk(vertices[v], v, directed)
    }

    /**
     * `stinger(w, d, N)`: `property` -1, `affected` false, and N vertices,
     * each with an empty out-block and, when directed, an empty in-block.
     */
    constructor (w: bool, d: bool, n: nat)
      ensures Valid() && weighted == w && directed == d && numNodesInit == n
      ensures numNodes == 0 && numEdges == 0
      ensures forall v :: 0 <= v < n ==> property[v] == -1.0 && !affected[v]
      ensures forall v :: 0 <= v < n ==> vertices[v] == InitialVertex(v, d)
      ensures forall v :: 0 <= v < n ==> OutLists(vertices)[v] == [] && InLists(vertices)[v] == []
    {
      weighted := w;
      directed := d;
      numNodesInit := n;
      numNodes := 0;
      numEdges := 0;
      property := seq(n, _ => -1.0);
      affected := seq(n, _ => false);
      var vs: seq<Vertex> := [];
      var i := 0;
      while i < n
        invariant 0 <= i <= n && |vs| == i
        invariant forall v :: 0 <= v < i ==> vs[v] == InitialVertex(v, d)
      {
        vs := vs + [InitialVertex(i, d)];
        i := i + 1;
      }
      vertices := vs;
      assert forall v :: 0 <= v < n ==> VertexOk(vs[v], v, d) && Live(vs[v].outs) == [] && Live(vs[v].ins) == [];
    }

    /**
     * `processMetaData(e, source)`: the endpoint is flagged, one edge end
     * is counted, and one vertex when the endpoint did not exist.
     */
    method ProcessMetaData(e: Edge, source: bool)
      requires Valid() && 0 <= (if source then e.source else e.destination) < |affected|
      modifies this`affected, this`numNodes, this`numEdges
      ensures Valid()
      ensures affected == old(affected)[(if source then e.source else e.destination) := true]
      ensures numEdges == old(numEdges) + 1
      ensures numNodes == old(numNodes) + (if (if source then e.sourceExists else e.destExists) then 0 else 1)
    {
      var known := if source then e.sourceExists else e.destExists;
      var v := if source then e.source else e.destination;
      var aff := affected[v];
      if !aff {
        affected := affected[v := true];
      }
      if known {
        numEdges := numEdges + 1;
      } else {
        numNodes := numNodes + 1;
        numEdges := numEdges + 1;
      }
    }

    /**
     * `updateForVertex(e, source)`: the source side inserts into the
     * source's out-chain, the destination side into the destination's
     * out-chain (undirected) or in-chain (directed).  Seen as lists, this
     * is `adListShared`'s upsert with e's weight, and the degree counters
     * keep counting the lists.
     */
    method UpdateForVertex(e: Edge, source: bool)
      requires Valid() && 0 <= e.source < numNodesInit && 0 <= e.destination < numNodesInit
      modifies this`vertices
      ensures Valid()
      ensures source ==>
                OutLists(vertices) == OutLists(old(vertices))[e.source := NL.Upserted(OutLists(old(vertices))[e.source], Info(true, e.destination, e.weight))]
                && InLists(vertices) == InLists(old(vertices))
      ensures !source && !directed ==>
                OutLists(vertices) == OutLists(old(vertices))[e.destination := NL.Upserted(OutLists(old(vertices))[e.destination], Info(true, e.source, e.weight))]
                && InLists(vertices) == InLists(old(vertices))
      ensures !source && directed ==>
                InLists(vertices) == InLists(old(vertices))[e.destination := NL.Upserted(InLists(old(vertices))[e.destination], Info(true, e.source, e.weight))]
                && OutLists(vertices) == OutLists(old(vertices))
    {
      var n := if source then e.source else e.destination;
      var y := InsertIntoVertex(vertices[n], n, e, source, directed);
      ListsAfterSet(vertices, n, y);
      VerticesAfterSet(vertices, n, y, vertices[n := y], directed);
      vertices := vertices[n := y];
    }

    /** One edge of `update`: `processMetaData` and `updateForVertex` for the source, then for the destination. */
    method UpdateEdge(e: Edge)
      requires Valid() && 0 <= e.source < numNodesInit && 0 <= e.destination < numNodesInit
      modifies this`affected, this`numNodes, this`numEdges, this`vertices
      ensures Valid()
      ensures affected == old(affected)[e.source := true][e.destination := true]
      ensures numNodes == old(numNodes) + (if e.sourceExists then 0 else 1) + (if e.destExists then 0 else 1)
      ensures numEdges == old(numEdges) + 2
      ensures OutLists(vertices) == PC.Applied(OutLists(old(vertices)), S.OutSide([e], directed), true)
      ensures InLists(vertices) == PC.Applied(InLists(old(vertices)), S.InSide([e], directed), true)
    {
      ghost var outs0, ins0 := OutLists(vertices), InLists(vertices);
      ProcessMetaData(e, true);
      UpdateForVertex(e, true);
      ghost var outs1, ins1 := OutLists(vertices), InLists(vertices);
      ProcessMetaData(e, false);
      UpdateForVertex(e, false);
      S.EdgeSides(outs0, ins0, outs1, ins1, OutLists(vertices), InLists(vertices), e, directed, true);
    }

    /**
     * `update(el)`: per edge, the source side and then the destination
     * side.  The counters and flags change as for every container, and the
     * chains, read as lists, receive exactly what `adListShared`'s vectors
     * receive, with the weights always kept.
     */
    method Update(el: seq<Edge>)
      requires Valid() && D.EndpointsBelow(el, numNodesInit)
      modifies this`affected, this`numNodes, this`numEdges, this`vertices
      ensures Valid() && property == old(property)
      ensures affected == D.MarkAffected(old(affected), el)
      ensures numNodes == old(numNodes) + D.NewNodes(el)
      ensures numEdges == old(numEdges) + 2 * |el|
      ensures OutLists(vertices) == PC.Applied(OutLists(old(vertices)), S.OutSide(el, directed), true)
      ensures InLists(vertices) == PC.Applied(InLists(old(vertices)), S.InSide(el, directed), true)
    {
      var i := 0;
      while i < |el|
        invariant 0 <= i <= |el| && Valid() && property == old(property)
        invariant affected == D.MarkAffected(old(affected), el[..i])
        invariant numNodes == old(numNodes) + D.NewNodes(el[..i])
        invariant numEdges == old(numEdges) + 2 * i
        invariant OutLists(vertices) == PC.Applied(OutLists(old(vertices)), S.OutSide(el[..i], directed), true)
        invariant InLists(vertices) == PC.Applied(InLists(old(vertices)), S.InSide(el[..i], directed), true)
      {
        D.MarkAffectedStep(old(affected), el, i);
        D.NewNodesStep(el, i);
        S.AppliedSidesStep(OutLists(old(vertices)), InLists(old(vertices)), el, i, directed, true);
        UpdateEdge(el[i]);
        i := i + 1;
      }
      assert el[..i] == el;
    }

    /**
     * `out_degree(n)`: the counter equals the number of n's out-neighbours,
     * which are distinct, and the sum of `numEdges` over n's out-chain.
     */
    function OutDegree(n: int): (r: int)
      requires Valid() && 0 <= n < numNodesInit
      reads this
      ensures r == |OutLists(vertices)[n]| == SumEdges(vertices[n].outs)
      ensures NL.DistinctIds(OutLists(vertices)[n]) && !NL.Has(OutLists(vertices)[n], -1)
    {
      ChainCounts(vertices[n].outs, n);
      vertices[n].outDegree
    }

    /** `in_degree(n)`: as `out_degree` for the in-chain when directed; the out-degree otherwise. */
    function InDegree(n: int): (r: int)
      requires Valid() && 0 <= n < numNodesInit
      reads this
      ensures directed ==> r == |InLists(vertices)[n]| == SumEdges(vertices[n].ins)
      ensures !directed ==> r == |OutLists(vertices)[n]| == SumEdges(vertices[n].outs)
    {
      if directed then
        ChainCounts(vertices[n].ins, n);
        vertices[n].inDegree
      else
        ChainCounts(vertices[n].outs, n);
        vertices[n].outDegree
    }
  }

  /** A valid chain lists its blocks' edge counts' sum of neighbours, all of them distinct and real. */
  lemma {:induction false} ChainCounts(c: seq<Block>, owner: int)
    requires ChainOk(c, owner)
    ensures |Live(c)| == SumEdges(c) && NL.DistinctIds(Live(c)) && !NL.Has(Live(c), -1)
  {
    LiveLength(c);
    ChainReal(c, owner);
  }
}
