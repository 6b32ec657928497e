/**
 * The value types shared by every dynamic-graph container: the neighbour
 * records `Node` and `NodeWeight`, the edge record `Edge` with its
 * constructors and `reverse`, and the pair key `EdgeId`.
 *
 * Vertex ids and weights are 64-bit integers in the program; they are
 * unbounded `int`s here.  Every container is a template over the neighbour
 * type T (`Node` when the graph is unweighted, `NodeWeight` when it is
 * weighted).  Containers only ever observe a neighbour through
 * `getNodeID`/`getWeight`, so a stored T is represented by the
 * `NodeWeight` that those getters would report (see `Info`).
 */
module Types {

  datatype Option<T> = None | Some(value: T)

  // ---------------------------------------------------------------------
  // Integer helpers
  // ---------------------------------------------------------------------

  /** C++ `%` on a signed left operand: the remainder takes the sign of `a`. */
  function TruncMod(a: int, m: int): (r: int)
    requires m > 0
    ensures a >= 0 ==> 0 <= r < m
    ensures a < 0 ==> -m < r <= 0
  {
    if a >= 0 then a % m else -((-a) % m)
  }

  // ---------------------------------------------------------------------
  // Neighbour records
  // ---------------------------------------------------------------------

  /** `Node`: an unweighted neighbour; the default id is -1. */
  datatype Node = Node(node: int)

  const DefaultNode: Node := Node(-1)

  /** `Node::setInfo` ignores the weight. */
  function NodeSetInfo(n: int, w: int): (r: Node)
    ensures r.node == n
  {
    Node(n)
  }

  /** `Node::getWeight` always reports -1. */
  function NodeGetWeight(x: Node): int
  {
    -1
  }

  lemma NodeSetInfoIgnoresWeight(n: int, w1: int, w2: int)
    ensures NodeSetInfo(n, w1) == NodeSetInfo(n, w2)
    ensures NodeGetWeight(NodeSetInfo(n, w1)) == -1
  {
  }

  /** `NodeWeight`: a neighbour with a weight; the default is (-1, -1). */
  datatype NodeWeight = NodeWeight(node: int, weight: int)

  const DefaultNodeWeight: NodeWeight := NodeWeight(-1, -1)

  /** The one-argument constructor `NodeWeight(n)` leaves the weight at -1. */
  function NodeWeightOf(n: int): (r: NodeWeight)
    ensures r.node == n && r.weight == -1
  {
    NodeWeight(n, -1)
  }

  /** `NodeWeight::setInfo` stores both fields. */
  function NodeWeightSetInfo(n: int, w: int): (r: NodeWeight)
    ensures r.node == n && r.weight == w
  {
    NodeWeight(n, w)
  }

  /** `NodeWeight::operator==` compares both fields. */
  predicate NodeWeightEq(a: NodeWeight, b: NodeWeight)
  {
    a.node == b.node && a.weight == b.weight
  }

  /** `NodeWeight::operator<`: by node, ties broken by weight. */
  predicate NodeWeightLess(a: NodeWeight, b: NodeWeight)
  {
    if a.node == b.node then a.weight < b.weight else a.node < b.node
  }

  lemma NodeWeightEqIsEquality(a: NodeWeight, b: NodeWeight)
    ensures NodeWeightEq(a, b) <==> a == b
  {
  }

  /** `operator<` is a strict total order whose incomparable pairs are the equal ones. */
  lemma NodeWeightLessIsStrictTotalOrder(a: NodeWeight, b: NodeWeight, c: NodeWeight)
    ensures !NodeWeightLess(a, a)
    ensures NodeWeightLess(a, b) ==> !NodeWeightLess(b, a)
    ensures NodeWeightLess(a, b) && NodeWeightLess(b, c) ==> NodeWeightLess(a, c)
    ensures NodeWeightLess(a, b) || NodeWeightLess(b, a) || NodeWeightEq(a, b)
  {
  }

  /**
   * What a container stores when it calls `T::setInfo(n, w)` on a fresh T,
   * seen through the getters: `NodeWeight` keeps w, `Node` reports -1.
   */
  function Info(weighted: bool, n: int, w: int): (r: NodeWeight)
    ensures r.node == n
    ensures r.weight == (if weighted then w else -1)
  {
    if weighted then NodeWeightSetInfo(n, w) else NodeWeight(NodeSetInfo(n, w).node, -1)
  }

  // ---------------------------------------------------------------------
  // Edges
  // ---------------------------------------------------------------------

  /** The pair (source, destination), the key of the low-degree store. */
  datatype EdgeId = EdgeId(first: int, second: int)

  const DefaultEdgeId: EdgeId := EdgeId(0, 0)

  /** `EdgeID::operator%` reduces the first component only. */
  function EdgeIdMod(id: EdgeId, m: int): int
    requires m > 0
  {
    TruncMod(id.first, m)
  }

  lemma EdgeIdModIsFirstMod(id: EdgeId, m: int)
    requires m > 0 && id.first >= 0
    ensures EdgeIdMod(id, m) == id.first % m
    ensures forall b :: EdgeIdMod(EdgeId(id.first, b), m) == EdgeIdMod(id, m)
  {
  }

  datatype Edge = Edge(source: int, destination: int, weight: int, batchId: int,
                       sourceExists: bool, destExists: bool)

  /** The five-argument constructor: the batch id starts at -1. */
  function MakeEdge(s: int, d: int, w: int, se: bool, de: bool): (e: Edge)
    ensures e.source == s && e.destination == d && e.weight == w
    ensures e.batchId == -1 && e.sourceExists == se && e.destExists == de
  {
    Edge(s, d, w, -1, se, de)
  }

  /** `Edge(s, d, se, de)`: weight -1. */
  function EdgeWithFlags(s: int, d: int, se: bool, de: bool): (e: Edge)
    ensures e == MakeEdge(s, d, -1, se, de)
  {
    MakeEdge(s, d, -1, se, de)
  }

  /** `Edge(s, d, w)`: neither endpoint is known to exist. */
  function WeightedEdge(s: int, d: int, w: int): (e: Edge)
    ensures e == MakeEdge(s, d, w, false, false)
  {
    MakeEdge(s, d, w, false, false)
  }

  /** `Edge(s, d)`: weight -1 and both exists flags false. */
  function PlainEdge(s: int, d: int): (e: Edge)
    ensures e.weight == -1 && !e.sourceExists && !e.destExists && e.batchId == -1
    ensures e.source == s && e.destination == d
  {
    WeightedEdge(s, d, -1)
  }

  /** `Edge::reverse`: swaps the endpoints and their flags, keeps the weight. */
  function Reverse(e: Edge): (r: Edge)
    ensures r.source == e.destination && r.destination == e.source
    ensures r.sourceExists == e.destExists && r.destExists == e.sourceExists
    ensures r.weight == e.weight && r.batchId == -1
  {
    MakeEdge(e.destination, e.source, e.weight, e.destExists, e.sourceExists)
  }

  /** Reversing twice restores every field except the batch id. */
  lemma ReverseTwice(e: Edge)
    ensures Reverse(Reverse(e)) == e.(batchId := -1)
  {
  }
}
