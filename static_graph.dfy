/**
 * The static CSR graph: `NodeWeight` (a neighbour with a weight, ordered
 * by vertex then weight but compared for equality by vertex alone) and
 * `CSRGraph`, which keeps for each direction an index of n + 1 positions
 * into a neighbour array, so that vertex v's neighbours sit between
 * `index[v]` and `index[v + 1]`.
 *
 * The index holds pointers into the neighbour array; here each pointer is
 * its position in that array, so pointer differences are differences of
 * positions.  The neighbours themselves are of any type `Dest`.
 */
module StaticGraph {

  // ---------------------------------------------------------------------
  // NodeWeight
  // ---------------------------------------------------------------------

  /** `NodeWeight<NodeID_, WeightT_>` of the static graph. */
  datatype SNodeWeight = SNodeWeight(v: int, w: int)

  /** `NodeWeight(v)`: weight 1. */
  function SingleNodeWeight(v: int): (r: SNodeWeight)
    ensures r.v == v && r.w == 1
  {
    SNodeWeight(v, 1)
  }

  /** `operator<`: by vertex, then by weight. */
  predicate Less(a: SNodeWeight, b: SNodeWeight)
  {
    if a.v == b.v then a.w < b.w else a.v < b.v
  }

  /** `operator==` against another `NodeWeight`: the vertex only. */
  predicate Same(a: SNodeWeight, b: SNodeWeight)
  {
    a.v == b.v
  }

  /** `operator==` against a vertex id. */
  predicate SameNode(a: SNodeWeight, n: int)
  {
    a.v == n
  }

  /** `<` is a strict total order whose incomparable pairs are the equal values. */
  lemma LessIsStrictTotalOrder(a: SNodeWeight, b: SNodeWeight, c: SNodeWeight)
    ensures !Less(a, a)
    ensures Less(a, b) && Less(b, c) ==> Less(a, c)
    ensures !Less(a, b) && !Less(b, a) <==> a == b
  {
  }

  /**
   * `==` ignores the weight: it holds exactly when the vertices agree, so
   * two entries it calls equal can still be ordered by `<`.
   */
  lemma SameIgnoresWeight(a: SNodeWeight, b: SNodeWeight)
    ensures Same(a, b) <==> SameNode(a, b.v)
    ensures Same(a, b) && a.w < b.w ==> Less(a, b) && a != b
    ensures a == b ==> Same(a, b)
  {
  }

  // ---------------------------------------------------------------------
  // Index arithmetic
  // ---------------------------------------------------------------------

  /** Signed 64-bit division, which rounds toward zero. */
  function TruncDiv(a: int, d: int): (q: int)
    requires d > 0
    ensures a >= 0 ==> q == a / d
    ensures a < 0 ==> q == -((-a) / d)
  {
    if a >= 0 then a / d else -((-a) / d)
  }

  /** `index[v + 1] - index[v]`: the number of neighbours of v. */
  function Degree(index: seq<int>, v: nat): int
    requires v + 1 < |index|
  {
    index[v + 1] - index[v]
  }

  /** The degrees of vertices 0 up to k, added up. */
  function DegreeSum(index: seq<int>, k: nat): int
    requires k < |index|
  {
    if k == 0 then 0 else DegreeSum(index, k - 1) + Degree(index, k - 1)
  }

  /** The degrees of the first k vertices add up to the span of the index over them. */
  lemma {:induction false} DegreeSumIsSpan(index: seq<int>, k: nat)
    requires k < |index|
    ensures DegreeSum(index, k) == index[k] - index[0]
  {
    if k > 0 {
      DegreeSumIsSpan(index, k - 1);
    }
  }

  /** `num_edges_directed`: an undirected edge is stored once from each end. */
  function EdgesDirected(directed: bool, numEdges: int): int
  {
    if directed then numEdges else 2 * numEdges
  }

  /**
   * The edge counts the constructors derive from the index agree with the
   * neighbour entries it spans: a directed graph has one entry per edge;
   * an undirected one, whose span is even, two; an odd span would lose one.
   */
  lemma EdgesDirectedIsDegreeSum(index: seq<int>, n: nat)
    requires n < |index|
    ensures EdgesDirected(true, index[n] - index[0]) == DegreeSum(index, n)
    ensures var span := index[n] - index[0];
            span >= 0 ==>
              EdgesDirected(false, TruncDiv(span, 2)) == (if span % 2 == 0 then span else span - 1)
  {
    DegreeSumIsSpan(index, n);
  }

  /** `VertexOffsets`: each position of the index, relative to its first. */
  function Offsets(index: seq<int>, len: nat): seq<int>
    requires len <= |index|
  {
    seq(len, k requires 0 <= k < len => index[k] - index[0])
  }

  /** `GenIndex`: each offset added to the position of the neighbour array. */
  function Shift(offsets: seq<int>, base: int): seq<int>
  {
    seq(|offsets|, k requires 0 <= k < |offsets| => base + offsets[k])
  }

  /**
   * The offsets of n vertices start at 0, step by each vertex's degree and
   * end at the total degree.
   */
  lemma OffsetsMeaning(index: seq<int>, n: nat)
    requires n < |index|
    ensures var o := Offsets(index, n + 1);
            && |o| == n + 1 && o[0] == 0
            && (forall k :: 0 <= k < n ==> o[k + 1] - o[k] == Degree(index, k))
            && o[n] == DegreeSum(index, n)
  {
    DegreeSumIsSpan(index, n);
  }

  /** Rebuilding an index from its offsets and its first position gives it back. */
  lemma ShiftOffsets(index: seq<int>, n: nat)
    requires n < |index|
    ensures Shift(Offsets(index, n + 1), index[0]) == index[..n + 1]
  {
  }

  // ---------------------------------------------------------------------
  // Degree histogram
  // ---------------------------------------------------------------------

  /** The cache lines a vertex of degree `deg` fills with 4-byte entries: `(4 * deg) / 64 + 1`. */
  function Bucket(deg: int): int
  {
    TruncDiv(4 * deg, 64) + 1
  }

  /** The buckets of vertices 0 up to n, in order. */
  function Buckets(index: seq<int>, n: nat): (bs: seq<int>)
    requires n < |index|
    ensures |bs| == n
  {
    seq(n, v requires 0 <= v < n => Bucket(Degree(index, v)))
  }

  /** The two vectors of a histogram: bucket keys in order of first appearance, and their counts. */
  datatype Hist = Hist(keys: seq<int>, counts: seq<int>)

  /** The first position of `b` in `keys`, or `|keys|`. */
  function Find(keys: seq<int>, b: int): (j: nat)
    ensures j <= |keys| && (j < |keys| ==> keys[j] == b)
    ensures forall i :: 0 <= i < j ==> keys[i] != b
  {
    if |keys| == 0 then 0 else if keys[0] == b then 0 else 1 + Find(keys[1..], b)
  }

  /** One vertex's bucket counted: the first matching key goes up by one; a new key is appended with count 1. */
  function Tally(h: Hist, b: int): Hist
    requires |h.keys| == |h.counts|
  {
    var j := Find(h.keys, b);
    if j < |h.keys| then Hist(h.keys, h.counts[j := h.counts[j] + 1])
    else Hist(h.keys + [b], h.counts + [1])
  }

  /** The histogram of a sequence of buckets, counted in order. */
  function HistogramOf(bs: seq<int>): (h: Hist)
    ensures |h.keys| == |h.counts|
  {
    if |bs| == 0 then Hist([], []) else Tally(HistogramOf(bs[..|bs| - 1]), bs[|bs| - 1])
  }

  function Sum(s: seq<int>): int
  {
    if |s| == 0 then 0 else Sum(s[..|s| - 1]) + s[|s| - 1]
  }

  lemma {:induction false} SumBump(s: seq<int>, j: nat)
    requires j < |s|
    ensures Sum(s[j := s[j] + 1]) == Sum(s) + 1
  {
    var t := s[j := s[j] + 1];
    assert t[..|t| - 1] == if j < |s| - 1 then s[..|s| - 1][j := s[j] + 1] else s[..|s| - 1];
    if j < |s| - 1 {
      SumBump(s[..|s| - 1], j);
    }
  }

  /** A histogram whose keys are distinct and whose counts are the multiplicities of the keys. */
  ghost predicate Counts(h: Hist, bs: seq<int>)
  {
    && |h.keys| == |h.counts|
    && (forall i, j :: 0 <= i < j < |h.keys| ==> h.keys[i] != h.keys[j])
    && (forall j :: 0 <= j < |h.keys| ==> h.counts[j] == multiset(bs)[h.keys[j]])
    && (forall b :: b in multiset(bs) <==> b in h.keys)
  }

  lemma TallyCounts(h: Hist, bs: seq<int>, b: int)
    requires Counts(h, bs)
    ensures Counts(Tally(h, b), bs + [b])
  {
    assert multiset(bs + [b]) == multiset(bs) + multiset{b};
  }

  /** Counting one more vertex adds one to the total of the counts. */
  lemma TallySum(h: Hist, b: int)
    requires |h.keys| == |h.counts|
    ensures Sum(Tally(h, b).counts) == Sum(h.counts) + 1
  {
    var j := Find(h.keys, b);
    if j < |h.keys| {
      SumBump(h.counts, j);
    } else {
      assert (h.counts + [1])[..|h.counts|] == h.counts;
    }
  }

  /**
   * The histogram has one key per distinct bucket, in order of first
   * appearance, each with the number of vertices in that bucket; so the
   * counts add up to the number of vertices.
   */
  lemma {:induction false} HistogramMeaning(bs: seq<int>)
    ensures Counts(HistogramOf(bs), bs)
    ensures Sum(HistogramOf(bs).counts) == |bs|
  {
    if |bs| > 0 {
      var init := bs[..|bs| - 1];
      HistogramMeaning(init);
      assert init + [bs[|bs| - 1]] == bs;
      TallyCounts(HistogramOf(init), init, bs[|bs| - 1]);
      TallySum(HistogramOf(init), bs[|bs| - 1]);
    }
  }

  // ---------------------------------------------------------------------
  // CSRGraph
  // ---------------------------------------------------------------------

  /** `CSRGraph<NodeID_, DestID_>`. */
  class CSRGraph<Dest> {
    var directed: bool
    var numNodes: int
    var numEdges: int
    var outIndex: array?<int>
    var outNeighbors: array?<Dest>
    var inIndex: array?<int>
    var inNeighbors: array?<Dest>

    /** The state a default construction and a move leave behind. */
    predicate Empty()
      reads this
    {
      numNodes == -1 && numEdges == -1
      && outIndex == null && outNeighbors == null && inIndex == null && inNeighbors == null
    }

    /** `CSRGraph()`: undirected, no nodes, no edges, no arrays. */
    constructor ()
      ensures Empty() && !directed
    {
      directed := false;
      numNodes := -1;
      numEdges := -1;
      outIndex := null;
      outNeighbors := null;
      inIndex := null;
      inNeighbors := null;
    }

    /** `CSRGraph(num_nodes, index, neighs)`: undirected; both directions share the arrays; every edge is stored twice. */
    constructor Undirected(n: int, index: array<int>, neighs: array<Dest>)
      requires 0 <= n < index.Length
      ensures !directed && numNodes == n
      ensures outIndex == index && outNeighbors == neighs && inIndex == index && inNeighbors == neighs
      ensures numEdges == TruncDiv(index[n] - index[0], 2)
    {
      directed := false;
      numNodes := n;
      outIndex := index;
      outNeighbors := neighs;
      inIndex := index;
      inNeighbors := neighs;
      numEdges := TruncDiv(index[n] - index[0], 2);
    }

    /** `CSRGraph(num_nodes, out_index, out_neighs, in_index, in_neighs)`: directed. */
    constructor Directed(n: int, outIdx: array<int>, outNeighs: array<Dest>, inIdx: array<int>, inNeighs: array<Dest>)
      requires 0 <= n < outIdx.Length
      ensures directed && numNodes == n
      ensures outIndex == outIdx && outNeighbors == outNeighs && inIndex == inIdx && inNeighbors == inNeighs
      ensures numEdges == outIdx[n] - outIdx[0]
    {
      directed := true;
      numNodes := n;
      outIndex := outIdx;
      outNeighbors := outNeighs;
      inIndex := inIdx;
      inNeighbors := inNeighs;
      numEdges := outIdx[n] - outIdx[0];
    }

    /** `CSRGraph(CSRGraph&& other)`: takes over other's state and leaves other empty. */
    constructor Move(other: CSRGraph<Dest>)
      modifies other
      ensures directed == old(other.directed) && numNodes == old(other.numNodes) && numEdges == old(other.numEdges)
      ensures outIndex == old(other.outIndex) && outNeighbors == old(other.outNeighbors)
      ensures inIndex == old(other.inIndex) && inNeighbors == old(other.inNeighbors)
      ensures other.Empty() && other.directed == old(other.directed)
    {
      directed := other.directed;
      numNodes := other.numNodes;
      numEdges := other.numEdges;
      outIndex := other.outIndex;
      outNeighbors := other.outNeighbors;
      inIndex := other.inIndex;
      inNeighbors := other.inNeighbors;
      new;
      other.numEdges := -1;
      other.numNodes := -1;
      other.outIndex := null;
      other.outNeighbors := null;
      other.inIndex := null;
      other.inNeighbors := null;
    }

    /** `operator=(CSRGraph&& other)`: a move from another graph; a self-move changes nothing. */
    method MoveAssign(other: CSRGraph<Dest>)
      modifies this, other
      ensures other == this ==> unchanged(this)
      ensures other != this ==>
                && directed == old(other.directed) && numNodes == old(other.numNodes) && numEdges == old(other.numEdges)
                && outIndex == old(other.outIndex) && outNeighbors == old(other.outNeighbors)
                && inIndex == old(other.inIndex) && inNeighbors == old(other.inNeighbors)
                && other.Empty() && other.directed == old(other.directed)
    {
      if other != this {
        directed := other.directed;
        numEdges := other.numEdges;
        numNodes := other.numNodes;
        outIndex := other.outIndex;
        outNeighbors := other.outNeighbors;
        inIndex := other.inIndex;
        inNeighbors := other.inNeighbors;
        other.numEdges := -1;
        other.numNodes := -1;
        other.outIndex := null;
        other.outNeighbors := null;
        other.inIndex := null;
        other.inNeighbors := null;
      }
    }

    /**
     * `num_edges_directed()`: for a graph whose edge count the constructors
     * derived from the out-index, the number of neighbour entries the index
     * spans, that is, the sum of the out-degrees.
     */
    function NumEdgesDirected(): (r: int)
      reads this, outIndex
      ensures outIndex != null && 0 <= numNodes < outIndex.Length ==>
                var span := outIndex[numNodes] - outIndex[0];
                && (directed && numEdges == span ==> r == DegreeSum(outIndex[..], numNodes))
                && (!directed && span >= 0 && span % 2 == 0 && numEdges == TruncDiv(span, 2) ==>
                      r == DegreeSum(outIndex[..], numNodes))
    {
      if outIndex != null && 0 <= numNodes < outIndex.Length then
        EdgesDirectedIsDegreeSum(outIndex[..], numNodes);
        EdgesDirected(directed, numEdges)
      else
        EdgesDirected(directed, numEdges)
    }

    /** `out_degree(v)`: the step from v's vertex offset to the next one. */
    function OutDegree(v: nat): (d: int)
      requires outIndex != null && v + 1 < outIndex.Length
      reads this, outIndex
      ensures var o := Offsets(outIndex[..], v + 2); d == o[v + 1] - o[v]
    {
      Degree(outIndex[..], v)
    }

    /** `in_degree(v)`: the step from v's in-vertex offset to the next one. */
    function InDegree(v: nat): (d: int)
      requires inIndex != null && v + 1 < inIndex.Length
      reads this, inIndex
      ensures var o := Offsets(inIndex[..], v + 2); d == o[v + 1] - o[v]
    {
      Degree(inIndex[..], v)
    }

    /** `VertexOffsets(in_graph)`: the n + 1 positions of the chosen index, relative to its first. */
    method VertexOffsets(inGraph: bool) returns (offsets: array<int>)
      requires numNodes >= -1
      requires numNodes >= 0 ==> (if inGraph then inIndex else outIndex) != null
      requires numNodes >= 0 ==> numNodes < (if inGraph then inIndex else outIndex).Length
      ensures fresh(offsets) && offsets.Length == numNodes + 1
      ensures numNodes >= 0 ==> offsets[..] == Offsets((if inGraph then inIndex else outIndex)[..], numNodes + 1)
    {
      offsets := new int[numNodes + 1];
      if numNodes == -1 {
        return;
      }
      var index := if inGraph then inIndex else outIndex;
      var n := 0;
      while n < numNodes + 1
        invariant 0 <= n <= numNodes + 1
        invariant index != null && numNodes < index.Length
        invariant forall k :: 0 <= k < n ==> offsets[k] == index[k] - index[0]
      {
        offsets[n] := index[n] - index[0];
        n := n + 1;
      }
    }

    /** `printOutDegreeHistogram()`, without the file it writes. */
    method OutDegreeHistogram() returns (keys: seq<int>, counts: seq<int>)
      requires numNodes > 0 ==> outIndex != null && numNodes < outIndex.Length
      ensures numNodes <= 0 ==> keys == [] && counts == []
      ensures numNodes > 0 ==> Hist(keys, counts) == HistogramOf(Buckets(outIndex[..], numNodes))
    {
      keys, counts := DegreeHistogram(outIndex, numNodes);
    }

    /** `printInDegreeHistogram()`, without the file it writes. */
    method InDegreeHistogram() returns (keys: seq<int>, counts: seq<int>)
      requires numNodes > 0 ==> inIndex != null && numNodes < inIndex.Length
      ensures numNodes <= 0 ==> keys == [] && counts == []
      ensures numNodes > 0 ==> Hist(keys, counts) == HistogramOf(Buckets(inIndex[..], numNodes))
    {
      keys, counts := DegreeHistogram(inIndex, numNodes);
    }
  }

  /** `GenIndex(offsets, neighs)`: one position per offset, counted from the neighbour array's start `base`. */
  method GenIndex(offsets: array<int>, base: int) returns (index: array<int>)
    ensures fresh(index) && index[..] == Shift(offsets[..], base)
  {
    index := new int[offsets.Length];
    var n := 0;
    while n < offsets.Length
      invariant 0 <= n <= offsets.Length
      invariant forall k :: 0 <= k < n ==> index[k] == base + offsets[k]
    {
      index[n] := base + offsets[n];
      n := n + 1;
    }
  }

  /** The loop both histogram printers share, over one index of `n` vertices. */
  method DegreeHistogram(index: array?<int>, n: int) returns (keys: seq<int>, counts: seq<int>)
    requires n > 0 ==> index != null && n < index.Length
    ensures n <= 0 ==> keys == [] && counts == []
    ensures n > 0 ==> Hist(keys, counts) == HistogramOf(Buckets(index[..], n))
  {
    keys, counts := [], [];
    if n <= 0 {
      return;
    }
    ghost var bs := Buckets(index[..], n);
    var i := 0;
    while i < n
      invariant 0 <= i <= n
      invariant Hist(keys, counts) == HistogramOf(bs[..i])
    {
      var b := Bucket(index[i + 1] - index[i]);
      assert b == bs[i];
      assert bs[..i + 1][..i] == bs[..i];
      keys, counts := TallyStep(keys, counts, b);
      i := i + 1;
    }
    assert bs[..n] == bs;
  }

  /** The search for a vertex's bucket among the keys found so far, with its count or a new key. */
  method TallyStep(keys: seq<int>, counts: seq<int>, b: int) returns (keys': seq<int>, counts': seq<int>)
    requires |keys| == |counts|
    ensures Hist(keys', counts') == Tally(Hist(keys, counts), b)
  {
    keys', counts' := keys, counts;
    var found := false;
    var j := 0;
    while j < |keys|
      invariant 0 <= j <= |keys|
      invariant forall i :: 0 <= i < j ==> keys[i] != b
      invariant counts' == counts
    {
      if keys[j] == b {
        counts' := counts'[j := counts'[j] + 1];
        found := true;
        break;
      }
      j := j + 1;
    }
    if !found {
      keys' := keys' + [b];
      counts' := counts' + [1];
    }
  }
}
