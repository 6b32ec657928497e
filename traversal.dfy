/**
 * `traversal.h`: one lazy neighbour sequence per container.  A
 * `neighborhood` names a vertex and a direction (in- or out-storage);
 * `begin()` builds an iterator on it and `end()` the same iterator with a
 * null cursor, and a loop runs `++` while the two compare unequal.
 *
 * Each iterator's mutable fields are fields of a class here, and its
 * pointer cursor is an index (a slot of a vector, a (block, slot) pair of
 * a stinger chain, a slot of a hash table).  Each iterator also carries
 * `Rest()`, the neighbours it has still to yield: the constructor makes
 * it the whole neighbour list and every `++` drops its first element.
 */
module Traversal {
  import opened Types
  import NL = NeighborList
  import R = RobinHood
  import L = LowDegree
  import H = HighDegree
  import AL = AdList
  import S = AdListShared
  import PC = AdListPerChunk
  import D = DataStruc
  import CH = AdListChunked
  import ST = Stinger
  import DA = DegreeAware
  import opened Routing

  // ---------------------------------------------------------------------
  // in_neigh and out_neigh
  // ---------------------------------------------------------------------

  /** `neighborhood(node, ds, in_neigh)`, less the container: a vertex and whether in-storage is read. */
  datatype Neighborhood = Neighborhood(node: int, inNeigh: bool)

  /** `in_neigh(n, ds)`: in-storage for a directed graph; an undirected one keeps both directions in out-storage. */
  function InNeigh(n: int, directed: bool): (nb: Neighborhood)
    ensures nb.node == n && (nb.inNeigh <==> directed)
    ensures !directed ==> nb == OutNeigh(n)
  {
    Neighborhood(n, directed)
  }

  /** `out_neigh(n, ds)`: always out-storage. */
  function OutNeigh(n: int): (nb: Neighborhood)
    ensures nb.node == n && !nb.inNeigh
  {
    Neighborhood(n, false)
  }

  /** The vector of a vector-backed container that a neighbourhood reads. */
  function Vector(outs: seq<NL.List>, ins: seq<NL.List>, nb: Neighborhood): NL.List
    requires 0 <= nb.node < |outs| && (nb.inNeigh ==> nb.node < |ins|)
  {
    if nb.inNeigh then ins[nb.node] else outs[nb.node]
  }

  /**
   * The two neighbourhoods see an edge exactly as an `adList` stores it:
   * edge e is visible from both ends (its destination among its source's
   * out-neighbours, its source among its destination's in-neighbours when
   * directed and out-neighbours otherwise) exactly when out_neigh of the
   * source holds the destination and in_neigh of the destination holds
   * the source.
   */
  lemma NeighborhoodsSeeEdge(s: AL.Lists, e: Edge, directed: bool)
    requires AL.Shaped(s, directed)
    requires 0 <= e.source < |s.outs| && 0 <= e.destination < |s.outs|
    ensures AL.Sees(s, e, directed) <==>
              && NL.Has(Vector(s.outs, s.ins, OutNeigh(e.source)), e.destination)
              && NL.Has(Vector(s.outs, s.ins, InNeigh(e.destination, directed)), e.source)
  {
  }

  /**
   * After an `adListShared` batch, every edge of the batch is yielded from
   * both ends: out_neigh of its source holds its destination, in_neigh of
   * its destination holds its source, whatever the direction flag.
   */
  lemma SharedNeighborhoodsSeeBatch(outs: seq<NL.List>, ins: seq<NL.List>, el: seq<Edge>,
                                    weighted: bool, directed: bool, i: nat)
    requires |outs| == |ins| && D.EndpointsBelow(el, |outs|) && i < |el|
    requires forall v :: 0 <= v < |outs| ==> NL.DistinctIds(outs[v]) && NL.DistinctIds(ins[v])
    ensures var o := PC.Applied(outs, S.OutSide(el, directed), weighted);
            var n := PC.Applied(ins, S.InSide(el, directed), weighted);
            && 0 <= el[i].source < |o| && 0 <= el[i].destination < |o| && |n| == |o|
            && NL.Has(Vector(o, n, OutNeigh(el[i].source)), el[i].destination)
            && NL.Has(Vector(o, n, InNeigh(el[i].destination, directed)), el[i].source)
  {
    S.UpdateHoldsEveryEdge(outs, ins, el, weighted, directed, i);
  }

  // ---------------------------------------------------------------------
  // Iterators over a vector (adList, adListShared, adListChunked)
  // ---------------------------------------------------------------------

  /** What a vector iterator has still to yield: the entries from its cursor on, none once it is null. */
  function VecRest(l: NL.List, cursor: Option<nat>): NL.List
    requires cursor.Some? ==> cursor.value < |l|
  {
    if cursor.None? then [] else l[cursor.value..]
  }

  /** The constructor's cursor: null for an empty vector, else entry 0; either way all of l is still to come. */
  function VecBegin(l: NL.List): (c: Option<nat>)
    ensures c.Some? ==> c.value < |l|
    ensures VecRest(l, c) == l
  {
    if |l| == 0 then None else Some(0)
  }

  /** `operator++` on entry i: null past the last entry, else entry i + 1; what remains loses entry i. */
  function VecNext(l: NL.List, i: nat): (c: Option<nat>)
    requires i < |l|
    ensures c.Some? ==> c.value < |l|
    ensures VecRest(l, c) == l[i + 1..]
  {
    if i == |l| - 1 then None else Some(i + 1)
  }

  /** `neighborhood_iter<adList>`. */
  class AdListIter {
    const ds: AL.AdList
    const node: int
    const inNeigh: bool
    var cursor: Option<nat>

    /** The vertex exists and in-storage is read only for a directed graph. */
    ghost predicate Reads()
      reads ds
    {
      ds.Valid() && 0 <= node < ds.numNodes && (inNeigh ==> ds.directed)
    }

    /** The vector the iterator walks; its length is the degree the container reports. */
    function List(): (l: NL.List)
      requires Reads()
      reads ds
      ensures l == Vector(ds.outNeighbors, ds.inNeighbors, Neighborhood(node, inNeigh))
      ensures |l| == if inNeigh then ds.InDegree(node) else ds.OutDegree(node)
    {
      if inNeigh then ds.inNeighbors[node] else ds.outNeighbors[node]
    }

    ghost predicate Valid()
      reads this, ds
    {
      Reads() && (cursor.Some? ==> cursor.value < |List()|)
    }

    ghost function Rest(): NL.List
      requires Valid()
      reads this, ds
    {
      VecRest(List(), cursor)
    }

    /** `neighborhood_iter(ds, n, in_neigh)`: the cursor on entry 0, or null for an empty vector. */
    constructor (d: AL.AdList, n: int, inN: bool)
      requires d.Valid() && 0 <= n < d.numNodes && (inN ==> d.directed)
      ensures ds == d && node == n && inNeigh == inN
      ensures Valid() && Rest() == List()
    {
      ds, node, inNeigh := d, n, inN;
      new;
      var empty := |List()| == 0;
      cursor := if empty then None else Some(0);
    }

    /** `operator++`: null after the vector's last entry, else the next entry. */
    method Increment()
      requires Valid() && cursor.Some?
      modifies this`cursor
      ensures Valid() && cursor == VecNext(List(), old(cursor.value))
      ensures Rest() == old(Rest())[1..]
    {
      var size := |List()|;
      if cursor.value == size - 1 {
        cursor := None;
      } else {
        cursor := Some(cursor.value + 1);
      }
    }

    /** `operator*`: the neighbour id under the cursor, the first of those still to come. */
    function Current(): (r: int)
      requires Valid() && cursor.Some?
      reads this, ds
      ensures r == Rest()[0].node
    {
      List()[cursor.value].node
    }

    /** `extractWeight()`: the weight under the cursor. */
    function ExtractWeight(): (r: int)
      requires Valid() && cursor.Some?
      reads this, ds
      ensures r == Rest()[0].weight
    {
      List()[cursor.value].weight
    }

    /** `operator!=`: the cursors differ; against `end()` that is while something is still to come. */
    function NotEqual(it: AdListIter): (r: bool)
      reads this, it
      ensures Valid() && it.cursor.None? ==> (r <==> Rest() != [])
    {
      cursor != it.cursor
    }
  }

  /** `neighborhood::end()` on an `adList`: the iterator `begin()` builds, with a null cursor. */
  method AdListEnd(d: AL.AdList, nb: Neighborhood) returns (it: AdListIter)
    requires d.Valid() && 0 <= nb.node < d.numNodes && (nb.inNeigh ==> d.directed)
    ensures fresh(it) && it.Valid() && it.ds == d && it.node == nb.node && it.inNeigh == nb.inNeigh
    ensures it.cursor.None? && it.Rest() == []
  {
    it := new AdListIter(d, nb.node, nb.inNeigh);
    it.cursor := None;
  }

  /** `neighborhood_iter<adListShared>`: as for `adList`, over the vectors of the initial vertices. */
  class SharedIter {
    const ds: S.Shared
    const node: int
    const inNeigh: bool
    var cursor: Option<nat>

    ghost predicate Reads()
      reads ds
    {
      ds.Valid() && 0 <= node < ds.numNodesInit && (inNeigh ==> ds.directed)
    }

    function List(): (l: NL.List)
      requires Reads()
      reads ds
      ensures l == Vector(ds.outNeighbors, ds.inNeighbors, Neighborhood(node, inNeigh))
      ensures |l| == if inNeigh then ds.InDegree(node) else ds.OutDegree(node)
    {
      if inNeigh then ds.inNeighbors[node] else ds.outNeighbors[node]
    }

    ghost predicate Valid()
      reads this, ds
    {
      Reads() && (cursor.Some? ==> cursor.value < |List()|)
    }

    ghost function Rest(): NL.List
      requires Valid()
      reads this, ds
    {
      VecRest(List(), cursor)
    }

    constructor (d: S.Shared, n: int, inN: bool)
      requires d.Valid() && 0 <= n < d.numNodesInit && (inN ==> d.directed)
      ensures ds == d && node == n && inNeigh == inN
      ensures Valid() && Rest() == List()
    {
      ds, node, inNeigh := d, n, inN;
      new;
      var empty := |List()| == 0;
      cursor := if empty then None else Some(0);
    }

    method Increment()
      requires Valid() && cursor.Some?
      modifies this`cursor
      ensures Valid() && cursor == VecNext(List(), old(cursor.value))
      ensures Rest() == old(Rest())[1..]
    {
      var size := |List()|;
      if cursor.value == size - 1 {
        cursor := None;
      } else {
        cursor := Some(cursor.value + 1);
      }
    }

    function Current(): (r: int)
      requires Valid() && cursor.Some?
      reads this, ds
      ensures r == Rest()[0].node
    {
      List()[cursor.value].node
    }

    function ExtractWeight(): (r: int)
      requires Valid() && cursor.Some?
      reads this, ds
      ensures r == Rest()[0].weight
    {
      List()[cursor.value].weight
    }

    function NotEqual(it: SharedIter): (r: bool)
      reads this, it
      ensures Valid() && it.cursor.None? ==> (r <==> Rest() != [])
    {
      cursor != it.cursor
    }
  }

  /**
   * `neighborhood_iter<adListChunked>`: the vector is entry
   * `hash_within_chunk(n)` of the per-chunk lists of partition
   * `pt_hash(n)`, among the in-partitions or the out-partitions.
   */
  class ChunkedIter {
    const ds: CH.Chunked
    const node: int
    const inNeigh: bool
    const partIdx: int
    const subIdx: int
    var cursor: Option<nat>

    ghost predicate Reads()
      reads ds, ds.Repr
    {
      && ds.Valid() && ds.divisor > 0 && 0 <= node < ds.numNodesInit && (inNeigh ==> ds.directed)
      && partIdx == PtHash(node, ds.divisor) && subIdx == CH.HashWithinChunk(node, ds.divisor)
    }

    /** Sub-vector `subIdx` of partition `partIdx`; its length is the degree the container reports. */
    function List(): (l: NL.List)
      requires Reads()
      reads ds, ds.Repr
      ensures 0 <= partIdx < ds.divisor && 0 <= subIdx
      ensures var p := if inNeigh then ds.ins[partIdx] else ds.outs[partIdx];
              subIdx < |p.partAdList.neighbors| && l == p.partAdList.neighbors[subIdx]
      ensures |l| == if inNeigh then ds.InDegree(node) else ds.OutDegree(node)
    {
      CH.SplitInBounds(node, ds.numNodesInit, ds.divisor);
      if inNeigh then
        assert ds.ins[partIdx] == ds.Parts()[|ds.outs| + partIdx];
        ds.ins[partIdx].partAdList.neighbors[subIdx]
      else
        assert ds.outs[partIdx] == ds.Parts()[partIdx];
        ds.outs[partIdx].partAdList.neighbors[subIdx]
    }

    ghost predicate Valid()
      reads this, ds, ds.Repr
    {
      Reads() && (cursor.Some? ==> cursor.value < |List()|)
    }

    ghost function Rest(): NL.List
      requires Valid()
      reads this, ds, ds.Repr
    {
      VecRest(List(), cursor)
    }

    /** `neighborhood_iter(ds, n, in_neigh)`: locate the vector, then as for `adList`. */
    constructor (d: CH.Chunked, n: int, inN: bool)
      requires d.Valid() && d.divisor > 0 && 0 <= n < d.numNodesInit && (inN ==> d.directed)
      ensures ds == d && node == n && inNeigh == inN
      ensures partIdx == PtHash(n, d.divisor) && subIdx == CH.HashWithinChunk(n, d.divisor)
      ensures Valid() && Rest() == List()
    {
      ds, node, inNeigh := d, n, inN;
      partIdx := PtHash(n, d.divisor);
      subIdx := CH.HashWithinChunk(n, d.divisor);
      new;
      var empty := |List()| == 0;
      cursor := if empty then None else Some(0);
    }

    method Increment()
      requires Valid() && cursor.Some?
      modifies this`cursor
      ensures Valid() && cursor == VecNext(List(), old(cursor.value))
      ensures Rest() == old(Rest())[1..]
    {
      var size := |List()|;
      if cursor.value == size - 1 {
        cursor := None;
      } else {
        cursor := Some(cursor.value + 1);
      }
    }

    function Current(): (r: int)
      requires Valid() && cursor.Some?
      reads this, ds, ds.Repr
      ensures r == Rest()[0].node
    {
      List()[cursor.value].node
    }

    function ExtractWeight(): (r: int)
      requires Valid() && cursor.Some?
      reads this, ds, ds.Repr
      ensures r == Rest()[0].weight
    {
      List()[cursor.value].weight
    }

    function NotEqual(it: ChunkedIter): (r: bool)
      reads this, it
      ensures Valid() && it.cursor.None? ==> (r <==> Rest() != [])
    {
      cursor != it.cursor
    }
  }

  // ---------------------------------------------------------------------
  // The stinger iterator
  // ---------------------------------------------------------------------

  /**
   * The stinger iterator's position: the block it is in (`curr_eb`, an
   * index into the chain), the slot index (`cursor_index`) and the cursor,
   * a (block, slot) pair or null.
   */
  datatype StPos = StPos(block: nat, index: int, cursor: Option<(int, int)>)

  /** A chain the iterator can walk: blocks of at most their slot count of edges, none empty but the first. */
  ghost predicate Walkable(c: seq<ST.Block>)
  {
    && |c| >= 1
    && forall j :: 0 <= j < |c| ==> 0 <= c[j].numEdges <= |c[j].edges| && (j > 0 ==> c[j].numEdges > 0)
  }

  /** A position inside the chain whose cursor, when not null, is on an occupied slot of its block. */
  ghost predicate PosOk(c: seq<ST.Block>, p: StPos)
  {
    && p.block < |c|
    && (p.cursor.Some? ==> p.cursor.value == (p.block as int, p.index) && 0 <= p.index < c[p.block].numEdges)
  }

  /** The constructor's position: the head block, cursor on slot 0 unless the head block is empty. */
  function StBegin(c: seq<ST.Block>): (p: StPos)
    requires |c| >= 1
    ensures Walkable(c) ==> PosOk(c, p)
    ensures p.block == 0 && (p.cursor.None? <==> c[0].numEdges == 0)
  {
    var empty := c[0].numEdges == 0;
    StPos(0, 0, if empty then None else Some((0, 0)))
  }

  /**
   * `operator++`: the next slot of the block while there is one; past the
   * block's last edge, slot 0 of the next block or, at the tail, null.  An
   * index beyond the block's last edge leaves everything as it is.
   */
  function StNext(c: seq<ST.Block>, p: StPos): (q: StPos)
    requires p.block < |c|
    ensures Walkable(c) && PosOk(c, p) && p.cursor.Some? ==> PosOk(c, q)
    ensures p.cursor.Some? && PosOk(c, p) ==>
              (q.cursor.None? <==> p.block + 1 == |c| && p.index == c[p.block].numEdges - 1)
    ensures p.block <= q.block <= p.block + 1
  {
    var n := c[p.block].numEdges;
    if p.index < n - 1 then StPos(p.block, p.index + 1, Some((p.block, p.index + 1)))
    else if p.index == n - 1 then
      if p.block + 1 < |c| then StPos(p.block + 1, 0, Some((p.block + 1, 0))) else p.(cursor := None)
    else p
  }

  /** What the iterator yields from position p on: the slot under the cursor, then the rest after one `++`. */
  ghost function StRest(c: seq<ST.Block>, p: StPos): NL.List
    requires Walkable(c) && PosOk(c, p)
    decreases |c| - p.block, if p.cursor.Some? then c[p.block].numEdges - p.index else 0
  {
    if p.cursor.None? then []
    else
      var q := StNext(c, p);
      [ST.BlockLive(c[p.block])[p.index]] + (if q.cursor.None? then [] else StRest(c, q))
  }

  /** A chain split at block j: block j's neighbours, then those of the blocks after it. */
  lemma {:induction false} LiveFrom(c: seq<ST.Block>, j: nat)
    requires j < |c|
    ensures ST.Live(c[j..]) == ST.BlockLive(c[j]) + ST.Live(c[j + 1..])
  {
    assert c[j..] == [c[j]] + c[j + 1..];
    ST.LiveAppend([c[j]], c[j + 1..]);
    assert [c[j]][..0] == [];
    assert ST.Live([c[j]]) == ST.Live([]) + ST.BlockLive(c[j]);
  }

  /** The position with the cursor on slot k of block j. */
  function At(j: nat, k: nat): StPos
  {
    StPos(j, k, Some((j, k)))
  }

  /** One step of the walk: the slot under the cursor, then what follows the next position. */
  lemma {:induction false} StRestUnfold(c: seq<ST.Block>, j: nat, k: nat)
    requires Walkable(c) && j < |c| && k < c[j].numEdges
    ensures k + 1 < c[j].numEdges ==> StRest(c, At(j, k)) == [ST.BlockLive(c[j])[k]] + StRest(c, At(j, k + 1))
    ensures k + 1 == c[j].numEdges && j + 1 < |c| ==> StRest(c, At(j, k)) == [ST.BlockLive(c[j])[k]] + StRest(c, At(j + 1, 0))
    ensures k + 1 == c[j].numEdges && j + 1 == |c| ==> StRest(c, At(j, k)) == [ST.BlockLive(c[j])[k]]
  {
  }

  /** A step inside block j: the walk from slot k is slot k, then the walk from slot k + 1. */
  lemma {:induction false} StepWithin(c: seq<ST.Block>, j: nat, k: nat)
    requires Walkable(c) && j < |c| && k + 1 < c[j].numEdges
    requires StRest(c, At(j, k + 1)) == ST.BlockLive(c[j])[k + 1..] + ST.Live(c[j + 1..])
    ensures StRest(c, At(j, k)) == ST.BlockLive(c[j])[k..] + ST.Live(c[j + 1..])
  {
    var b := ST.BlockLive(c[j]);
    StRestUnfold(c, j, k);
    Regroup(b, k, ST.Live(c[j + 1..]));
  }

  /** Entry k of b, then b after k, then a: that is b from k on, then a. */
  lemma Regroup(b: NL.List, k: nat, a: NL.List)
    requires k < |b|
    ensures [b[k]] + (b[k + 1..] + a) == b[k..] + a
  {
    assert b[k..] == [b[k]] + b[k + 1..];
  }

  /** A step out of block j's last edge: that edge, then the walk from slot 0 of block j + 1. */
  lemma {:induction false} StepAcross(c: seq<ST.Block>, j: nat)
    requires Walkable(c) && j + 1 < |c| && c[j].numEdges > 0
    requires StRest(c, At(j + 1, 0)) == ST.BlockLive(c[j + 1])[0..] + ST.Live(c[j + 2..])
    ensures StRest(c, At(j, c[j].numEdges - 1)) == ST.BlockLive(c[j])[c[j].numEdges - 1..] + ST.Live(c[j + 1..])
  {
    var k := c[j].numEdges - 1;
    var b := ST.BlockLive(c[j]);
    StRestUnfold(c, j, k);
    LiveFrom(c, j + 1);
    assert ST.BlockLive(c[j + 1])[0..] == ST.BlockLive(c[j + 1]);
    assert b[k..] == [b[k]];
  }

  /** The tail block's last edge is the last thing yielded. */
  lemma {:induction false} StepLast(c: seq<ST.Block>, j: nat, k: nat)
    requires Walkable(c) && j + 1 == |c| && k + 1 == c[j].numEdges
    ensures StRest(c, At(j, k)) == ST.BlockLive(c[j])[k..] + ST.Live(c[j + 1..])
  {
    var b := ST.BlockLive(c[j]);
    StRestUnfold(c, j, k);
    assert c[j + 1..] == [];
    assert b[k..] == [b[k]];
  }

  /** From slot k of block j the iterator yields the rest of block j and then every later block. */
  lemma {:induction false} StRestFrom(c: seq<ST.Block>, j: nat, k: nat)
    requires Walkable(c) && j < |c| && k < c[j].numEdges
    ensures StRest(c, At(j, k)) == ST.BlockLive(c[j])[k..] + ST.Live(c[j + 1..])
    decreases |c| - j, c[j].numEdges - k
  {
    if k + 1 < c[j].numEdges {
      StRestFrom(c, j, k + 1);
      StepWithin(c, j, k);
    } else if j + 1 < |c| {
      StRestFrom(c, j + 1, 0);
      StepAcross(c, j);
    } else {
      StepLast(c, j, k);
    }
  }

  /** One `++` from a position whose cursor is not null keeps it in the chain and drops the first neighbour still to come. */
  lemma {:induction false} StRestStep(c: seq<ST.Block>, p: StPos)
    requires Walkable(c) && PosOk(c, p) && p.cursor.Some?
    ensures PosOk(c, StNext(c, p))
    ensures StRest(c, StNext(c, p)) == StRest(c, p)[1..]
  {
    var q := StNext(c, p);
    assert StRest(c, p) == [ST.BlockLive(c[p.block])[p.index]] + (if q.cursor.None? then [] else StRest(c, q));
  }

  /** The first neighbour still to come is the slot under the cursor. */
  lemma {:induction false} StRestHead(c: seq<ST.Block>, p: StPos)
    requires Walkable(c) && PosOk(c, p) && p.cursor.Some?
    ensures |StRest(c, p)| > 0
    ensures StRest(c, p)[0] == NodeWeight(c[p.block].edges[p.index].neighbor, c[p.block].edges[p.index].weight)
  {
    var q := StNext(c, p);
    assert StRest(c, p) == [ST.BlockLive(c[p.block])[p.index]] + (if q.cursor.None? then [] else StRest(c, q));
  }

  /** A chain as insertion leaves it can be walked. */
  lemma {:induction false} ChainWalkable(c: seq<ST.Block>, owner: int)
    requires ST.ChainOk(c, owner)
    ensures Walkable(c)
  {
    forall j | 0 <= j < |c|
      ensures 0 <= c[j].numEdges <= |c[j].edges| && (j > 0 ==> c[j].numEdges > 0)
    {
      assert ST.BlockOk(c[j], owner);
    }
  }

  /**
   * From `begin()` to a null cursor the stinger iterator yields exactly the
   * chain's neighbours, block after block in slot order; none of them is
   * the deleted marker -1, so the dereference's assertion holds.
   */
  lemma {:induction false} StIterationYieldsChain(c: seq<ST.Block>, owner: int)
    requires ST.ChainOk(c, owner)
    ensures Walkable(c) && PosOk(c, StBegin(c))
    ensures StRest(c, StBegin(c)) == ST.Live(c)
    ensures !NL.Has(StRest(c, StBegin(c)), -1)
  {
    ChainWalkable(c, owner);
    ST.ChainCounts(c, owner);
    LiveFrom(c, 0);
    assert c[0..] == c;
    if c[0].numEdges == 0 {
      assert |c| == 1;
      assert c[1..] == [];
    } else {
      StRestFrom(c, 0, 0);
      assert StBegin(c) == At(0, 0);
      assert ST.BlockLive(c[0])[0..] == ST.BlockLive(c[0]);
    }
  }

  /** `neighborhood_iter<stinger>`. */
  class StingerIter {
    const ds: ST.Stinger
    const node: int
    const inNeigh: bool
    var currBlock: nat
    var cursorIndex: int
    var cursor: Option<(int, int)>

    function Pos(): StPos
      reads this
    {
      StPos(currBlock, cursorIndex, cursor)
    }

    /** The vertex exists and in-storage is read only for a directed graph. */
    ghost predicate Reads()
      reads ds
    {
      ds.Valid() && 0 <= node < ds.numNodesInit && (inNeigh ==> ds.directed)
    }

    /** The chain walked: n's in-chain or out-chain. */
    function Chain(): seq<ST.Block>
      requires Reads()
      reads ds
    {
      if inNeigh then ds.vertices[node].ins else ds.vertices[node].outs
    }

    /** The chain walked is a valid chain whose neighbours are the vertex's neighbour list in that direction. */
    lemma ChainIsList()
      requires Reads()
      ensures ST.ChainOk(Chain(), node)
      ensures ST.Live(Chain()) == (if inNeigh then ST.InLists(ds.vertices) else ST.OutLists(ds.vertices))[node]
    {
      assert ST.VertexOk(ds.vertices[node], node, ds.directed);
    }

    /** Walking the chain from `begin()` yields the vertex's neighbour list, as many as its degree. */
    lemma BeginYieldsList()
      requires Reads()
      ensures Walkable(Chain()) && PosOk(Chain(), StBegin(Chain()))
      ensures StRest(Chain(), StBegin(Chain())) == ST.Live(Chain())
      ensures ST.Live(Chain()) == (if inNeigh then ST.InLists(ds.vertices) else ST.OutLists(ds.vertices))[node]
      ensures |ST.Live(Chain())| == if inNeigh then ds.InDegree(node) else ds.OutDegree(node)
    {
      ChainIsList();
      StIterationYieldsChain(Chain(), node);
    }

    ghost predicate Valid()
      reads this, ds
    {
      Reads() && Walkable(Chain()) && PosOk(Chain(), Pos())
    }

    ghost function Rest(): NL.List
      requires Valid()
      reads this, ds
    {
      StRest(Chain(), Pos())
    }

    /**
     * `neighborhood_iter(ds, n, in_neigh)`: the head block, cursor on its
     * slot 0 unless it holds no edge.  (`cursor_index` is left unset in
     * the source when the block is empty; it is 0 here.)
     */
    constructor (d: ST.Stinger, n: int, inN: bool)
      requires d.Valid() && 0 <= n < d.numNodesInit && (inN ==> d.directed)
      ensures ds == d && node == n && inNeigh == inN
      ensures Valid() && Pos() == StBegin(Chain())
      ensures Rest() == ST.Live(Chain())
      ensures Rest() == (if inN then ST.InLists(d.vertices) else ST.OutLists(d.vertices))[n]
      ensures |Rest()| == if inN then d.InDegree(n) else d.OutDegree(n)
    {
      ds, node, inNeigh := d, n, inN;
      new;
      var eb := Chain();
      var empty := eb[0].numEdges == 0;
      cursor := if empty then None else Some((0, 0));
      currBlock := 0;
      cursorIndex := 0;
      BeginYieldsList();
      assert Pos() == StBegin(Chain());
    }

    /** `operator++`. */
    method Increment()
      requires Valid() && cursor.Some?
      modifies this`currBlock, this`cursorIndex, this`cursor
      ensures Valid() && Pos() == StNext(Chain(), old(Pos()))
      ensures Rest() == old(Rest())[1..]
    {
      var c := Chain();
      ghost var p0 := Pos();
      StRestStep(c, p0);
      var eb := c[currBlock];
      if cursorIndex < eb.numEdges - 1 {
        cursor := Some((currBlock as int, cursorIndex + 1));
        cursorIndex := cursorIndex + 1;
      } else if cursorIndex == eb.numEdges - 1 {
        if currBlock + 1 < |c| {
          currBlock := currBlock + 1;
          cursor := Some((currBlock as int, 0));
          cursorIndex := 0;
        } else {
          cursor := None;
        }
      }
      assert Chain() == c && Pos() == StNext(c, p0);
    }

    /** `operator*`: the neighbour under the cursor, never -1 (the source asserts this). */
    function Current(): (r: int)
      requires Valid() && cursor.Some?
      reads this, ds
      ensures r != -1 && r == Rest()[0].node
    {
      ChainIsList();
      assert ST.BlockOk(Chain()[currBlock], node);
      StRestHead(Chain(), Pos());
      Chain()[currBlock].edges[cursorIndex].neighbor
    }

    /** `extractWeight()`: the weight under the cursor. */
    function ExtractWeight(): (r: int)
      requires Valid() && cursor.Some?
      reads this, ds
      ensures r == Rest()[0].weight
    {
      StRestHead(Chain(), Pos());
      Chain()[currBlock].edges[cursorIndex].weight
    }

    /** `operator!=`: the cursors differ; against `end()` that is while something is still to come. */
    function NotEqual(it: StingerIter): (r: bool)
      reads this, it
      ensures Valid() && it.cursor.None? ==> (r <==> Rest() != [])
    {
      cursor != it.cursor
    }
  }

  /** `neighborhood::end()` on a stinger: the iterator `begin()` builds, with a null cursor. */
  method StingerEnd(d: ST.Stinger, nb: Neighborhood) returns (it: StingerIter)
    requires d.Valid() && 0 <= nb.node < d.numNodesInit && (nb.inNeigh ==> d.directed)
    ensures fresh(it) && it.Valid() && it.ds == d && it.node == nb.node && it.inNeigh == nb.inNeigh
    ensures it.cursor.None? && it.Rest() == []
  {
    it := new StingerIter(d, nb.node, nb.inNeigh);
    it.cursor := None;
  }

  // ---------------------------------------------------------------------
  // The darhh iterator
  // ---------------------------------------------------------------------

  /** The partition `set_begin` reads: `pt_hash(src)` among the in-partitions when in, else the out-partitions. */
  method PartitionOf(ds: DA.Darhh, src: int, inN: bool) returns (p: DA.Partition)
    requires ds.Valid() && ds.numOut > 0 && src >= 0 && (inN ==> ds.directed)
    ensures p == ds.Parts()[(if inN then ds.numOut else 0) + PtHash(src, ds.numOut)]
    ensures p.Valid()
  {
    var h := PtHash(src, ds.numOut);
    if inN {
      p := ds.ins[h];
      assert p == ds.Parts()[ds.numOut + h];
    } else {
      p := ds.outs[h];
      assert p == ds.Parts()[h];
    }
    assert ds.PartOk(p);
  }

  /**
   * `neighborhood_iter<darhh>`: the low- and high-degree stores of one
   * partition, an iterator on each, and which of the two is in use.
   */
  class DarhhIter {
    var ld: R.Table?<EdgeId, NodeWeight>
    var hd: H.Store?
    var ldIter: L.Iter
    var hdIter: H.Iter
    var lowDegree: bool

    /**
     * `iter it;`: no store and both cursors null.  The source leaves these
     * fields unset until `set_begin` or `set_end`.
     */
    constructor ()
      ensures ld == null && hd == null && !lowDegree
      ensures ldIter.cursor.None? && hdIter.cursor.None?
    {
      ld, hd := null, null;
      ldIter := L.End(0);
      hdIter := H.End(0);
      lowDegree := false;
    }

    /** The cursor of the sub-iterator in use. */
    function Selected(): Option<nat>
      reads this
    {
      if lowDegree then ldIter.cursor else hdIter.cursor
    }

    /** The sub-iterator in use sits on its store and its cursor, when not null, on a slot of it. */
    ghost predicate Valid()
      reads this, ld, hd, if ld == null then {} else ld.Repr, if hd == null then {} else hd.Repr
    {
      if lowDegree then
        && ld != null && L.IsStore(ld)
        && ldIter.origin < ld.arr.Length && ldIter.pos < ld.arr.Length
        && (ldIter.cursor.Some? ==> ldIter.cursor.value < ld.arr.Length)
      else
        && hd != null && hd.Valid()
        && (hdIter.cursor.Some? ==> hdIter.src in hd.chunks && hdIter.cursor.value < hd.chunks[hdIter.src].arr.Length)
    }

    /**
     * `set_begin(ds, src, in)`: the stores of partition `pt_hash(src)`
     * (an in-partition when in), then as `Start`.
     */
    method SetBegin(ds: DA.Darhh, src: int, inN: bool)
      requires ds.Valid() && ds.numOut > 0 && src >= 0 && (inN ==> ds.directed)
      modifies this
      ensures var p := ds.Parts()[(if inN then ds.numOut else 0) + PtHash(src, ds.numOut)];
              && ld == p.ld && hd == p.hd && Valid()
              && (lowDegree <==> p.LowDegree(src) > 0)
              && (lowDegree ==> ldIter == L.BeginOf(p.ld.arr[..], src) && hdIter == old(hdIter))
              && (!lowDegree ==> ldIter == old(ldIter))
              && (!lowDegree && src in p.hd.chunks ==> hdIter == H.BeginOf(src, p.hd.chunks[src].arr[..]))
              && (!lowDegree && src !in p.hd.chunks ==> hdIter.cursor.None?)
    {
      var p := PartitionOf(ds, src, inN);
      Start(p, src);
    }

    /**
     * The rest of `set_begin` on partition p: the low store's iterator when
     * the low store reports a non-zero degree for src, the high store's
     * otherwise; the other iterator is left as it was.
     */
    method Start(p: DA.Partition, src: int)
      requires p.Valid()
      modifies this
      ensures ld == p.ld && hd == p.hd && Valid()
      ensures lowDegree <==> p.LowDegree(src) > 0
      ensures lowDegree ==> ldIter == L.BeginOf(p.ld.arr[..], src) && hdIter == old(hdIter)
      ensures !lowDegree ==> ldIter == old(ldIter)
      ensures !lowDegree && src in p.hd.chunks ==> hdIter == H.BeginOf(src, p.hd.chunks[src].arr[..])
      ensures !lowDegree && src !in p.hd.chunks ==> hdIter.cursor.None?
    {
      var deg := L.GetDegree(p.ld, src);
      assert deg == p.LowDegree(src) && p.hd.Valid();
      if deg != 0 {
        var it := L.Begin(p.ld, src);
        ld, hd, lowDegree, ldIter := p.ld, p.hd, true, it;
      } else {
        var it := H.Begin(p.hd, src);
        ld, hd, lowDegree, hdIter := p.ld, p.hd, false, it;
      }
    }

    /** `set_end()`: both cursors null. */
    method SetEnd()
      modifies this`ldIter, this`hdIter
      ensures ldIter.cursor.None? && hdIter.cursor.None? && Selected().None?
    {
      ldIter := ldIter.(cursor := None);
      hdIter := hdIter.(cursor := None);
    }

    /** `operator++`: advances the sub-iterator in use and only that one. */
    method Increment()
      requires Valid() && Selected().Some?
      modifies this`ldIter, this`hdIter
      ensures Valid()
      ensures lowDegree ==> ldIter == L.Advance(ld.arr[..], old(ldIter)) && hdIter == old(hdIter)
      ensures !lowDegree ==> hdIter == H.Advance(hd.chunks[old(hdIter).src].arr[..], old(hdIter)) && ldIter == old(ldIter)
    {
      if lowDegree {
        ldIter := L.Increment(ld, ldIter);
      } else {
        assert hd.ChunkOk(hdIter.src);
        hdIter := H.Increment(hd.chunks[hdIter.src], hdIter);
      }
    }

    /** `operator*`: the neighbour stored in the slot under the cursor in use. */
    function Current(): (r: int)
      requires Valid() && Selected().Some?
      reads this, ld, hd, if ld == null then {} else ld.Repr, if hd == null then {} else hd.Repr
    {
      if lowDegree then ld.arr[ldIter.cursor.value].val.node
      else
        assert hd.ChunkOk(hdIter.src);
        hd.chunks[hdIter.src].arr[hdIter.cursor.value].val.node
    }

    /** `operator!=`: only the sub-iterators in use are compared; against `end()` that is while its cursor is not null. */
    function NotEqual(it: DarhhIter): (r: bool)
      reads this, it
      ensures it.ldIter.cursor.None? && it.hdIter.cursor.None? ==> (r <==> Selected().Some?)
    {
      if lowDegree then ldIter.cursor != it.ldIter.cursor else hdIter.cursor != it.hdIter.cursor
    }
  }

  /** `neighborhood<darhh>::begin()`. */
  method DarhhBegin(ds: DA.Darhh, nb: Neighborhood) returns (it: DarhhIter)
    requires ds.Valid() && ds.numOut > 0 && nb.node >= 0 && (nb.inNeigh ==> ds.directed)
    ensures fresh(it) && it.Valid()
    ensures var p := ds.Parts()[(if nb.inNeigh then ds.numOut else 0) + PtHash(nb.node, ds.numOut)];
            && it.ld == p.ld && it.hd == p.hd
            && (it.lowDegree <==> p.LowDegree(nb.node) > 0)
            && (it.lowDegree ==> it.ldIter == L.BeginOf(p.ld.arr[..], nb.node))
            && (!it.lowDegree && nb.node in p.hd.chunks ==> it.hdIter == H.BeginOf(nb.node, p.hd.chunks[nb.node].arr[..]))
            && (!it.lowDegree && nb.node !in p.hd.chunks ==> it.hdIter.cursor.None?)
  {
    it := new DarhhIter();
    it.SetBegin(ds, nb.node, nb.inNeigh);
  }

  /** `neighborhood<darhh>::end()`. */
  method DarhhEnd() returns (it: DarhhIter)
    ensures fresh(it) && it.ldIter.cursor.None? && it.hdIter.cursor.None?
  {
    it := new DarhhIter();
    it.SetEnd();
  }
}
