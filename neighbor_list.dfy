/**
 * A vertex's neighbour vector (`std::vector<T>`) in the adjacency-list
 * containers, and the two ways they insert a neighbour into it.
 *
 * `adListPerChunk` and `adListShared` scan the vector once: an entry with
 * the same id gets the new weight; otherwise the first entry with id -1
 * (a deleted slot) is reused; otherwise the neighbour is appended.
 * `adList` scans for the same id only and appends when it is missing.
 */
module NeighborList {
  import opened Types

  type List = seq<NodeWeight>

  /** Some entry of l has id d. */
  predicate Has(l: List, d: int)
  {
    exists j :: 0 <= j < |l| && l[j].node == d
  }

  /** The index of the first entry of l whose id is d, if any. */
  function FirstWith(l: List, d: int): (r: Option<nat>)
    ensures r.Some? ==> r.value < |l| && l[r.value].node == d
    ensures r.Some? ==> forall j :: 0 <= j < r.value ==> l[j].node != d
    ensures r.None? <==> !Has(l, d)
  {
    if |l| == 0 then None
    else if l[|l| - 1].node == d && FirstWith(l[..|l| - 1], d).None? then Some(|l| - 1)
    else
      var r := FirstWith(l[..|l| - 1], d);
      assert r.None? ==> forall j :: 0 <= j < |l| - 1 ==> l[j].node != d by {
        if r.None? {
          forall j | 0 <= j < |l| - 1 ensures l[j].node != d {
            assert l[..|l| - 1][j] == l[j];
          }
        }
      }
      r
  }

  /**
   * `updateForExistingVertex` of `adListPerChunk`/`adListShared`: x (whose
   * id is the new neighbour) overwrites the first entry with x's id, else
   * the first deleted (-1) entry, else it is appended.
   */
  function Upserted(l: List, x: NodeWeight): List
  {
    match FirstWith(l, x.node)
    case Some(i) => l[i := x]
    case None =>
      match FirstWith(l, -1)
      case Some(j) => l[j := x]
      case None => l + [x]
  }

  /** `updateForExistingVertex` of `adList`: overwrite the first entry with x's id, else append. */
  function Overwritten(l: List, x: NodeWeight): List
  {
    match FirstWith(l, x.node)
    case Some(i) => l[i := x]
    case None => l + [x]
  }

  /** The ids other than -1 are pairwise distinct. */
  predicate DistinctIds(l: List)
  {
    forall i, j :: 0 <= i < j < |l| && l[i].node != -1 ==> l[i].node != l[j].node
  }

  /**
   * The index an upsert of x writes: the first entry with x's id, else the
   * first deleted entry, else one past the end.
   */
  function UpsertSlot(l: List, d: int): (k: nat)
    ensures k <= |l|
  {
    match FirstWith(l, d)
    case Some(i) => i
    case None =>
      match FirstWith(l, -1)
      case Some(j) => j
      case None => |l|
  }

  /**
   * The scan of `updateForExistingVertex` in `adListPerChunk` and
   * `adListShared`: one pass that stops at an entry with the new id and
   * remembers the first deleted entry on the way.
   */
  method Upsert(l: List, x: NodeWeight) returns (r: List)
    ensures r == Upserted(l, x)
  {
    var foundEmptySlot := -1;
    var i := 0;
    while i < |l|
      invariant 0 <= i <= |l|
      invariant forall j :: 0 <= j < i ==> l[j].node != x.node
      invariant foundEmptySlot == -1 ==> forall j :: 0 <= j < i ==> l[j].node != -1
      invariant foundEmptySlot != -1 ==>
                  0 <= foundEmptySlot < i && l[foundEmptySlot].node == -1
                  && forall j :: 0 <= j < foundEmptySlot ==> l[j].node != -1
    {
      if l[i].node == x.node {
        assert FirstWith(l, x.node) == Some(i);
        return l[i := x];
      }
      if l[i].node == -1 && foundEmptySlot == -1 {
        foundEmptySlot := i;
      }
      i := i + 1;
    }
    if foundEmptySlot != -1 {
      assert FirstWith(l, -1) == Some(foundEmptySlot);
      return l[foundEmptySlot := x];
    }
    return l + [x];
  }

  /** The scan of `adList::updateForExistingVertex`: stop at an entry with the new id, else append. */
  method Overwrite(l: List, x: NodeWeight) returns (r: List)
    ensures r == Overwritten(l, x)
  {
    var found := false;
    var i := 0;
    while i < |l|
      invariant 0 <= i <= |l|
      invariant forall j :: 0 <= j < i ==> l[j].node != x.node
    {
      if l[i].node == x.node {
        assert FirstWith(l, x.node) == Some(i);
        r := l[i := x];
        found := true;
        break;
      }
      i := i + 1;
    }
    if !found {
      r := l + [x];
    }
  }

  /**
   * What an upsert does, position by position: x lands at `UpsertSlot`,
   * every other entry stays, and the list grows only when it held neither
   * x's id nor a deleted entry.
   */
  lemma UpsertedWrites(l: List, x: NodeWeight)
    ensures var r := Upserted(l, x);
            var k := UpsertSlot(l, x.node);
            && |r| == (if Has(l, x.node) || Has(l, -1) then |l| else |l| + 1)
            && k < |r| && r[k] == x
            && (forall j :: 0 <= j < |l| && j != k ==> r[j] == l[j])
  {
  }

  /** The slot is an entry with x's id when there is one, and a deleted entry when there is no such entry but one is deleted. */
  lemma UpsertSlotChoice(l: List, d: int)
    ensures Has(l, d) ==> UpsertSlot(l, d) < |l| && l[UpsertSlot(l, d)].node == d
    ensures Has(l, d) ==> forall j :: 0 <= j < UpsertSlot(l, d) ==> l[j].node != d
    ensures !Has(l, d) && Has(l, -1) ==> UpsertSlot(l, d) < |l| && l[UpsertSlot(l, d)].node == -1
    ensures !Has(l, d) && Has(l, -1) ==> forall j :: 0 <= j < UpsertSlot(l, d) ==> l[j].node != -1
    ensures !Has(l, d) && !Has(l, -1) ==> UpsertSlot(l, d) == |l|
  {
  }

  /**
   * Upserting a real neighbour (id not -1) into a list without duplicate
   * ids keeps it so, leaves it holding that id exactly once, and keeps
   * every other real neighbour.
   */
  lemma UpsertKeepsDistinct(l: List, x: NodeWeight)
    requires x.node != -1 && DistinctIds(l)
    ensures var r := Upserted(l, x);
            && DistinctIds(r)
            && (forall j :: 0 <= j < |r| && r[j].node == x.node ==> j == UpsertSlot(l, x.node))
            && (forall y :: y != -1 && Has(l, y) ==> Has(r, y))
  {
    var r := Upserted(l, x);
    var k := UpsertSlot(l, x.node);
    UpsertedWrites(l, x);
    UpsertSlotChoice(l, x.node);
    forall y | y != -1 && Has(l, y) ensures Has(r, y) {
      var j :| 0 <= j < |l| && l[j].node == y;
      if j != k {
        assert r[j].node == y;
      } else {
        assert r[k].node == y;
      }
    }
  }

  /** Upserting the same neighbour again changes nothing. */
  lemma UpsertIdempotent(l: List, x: NodeWeight)
    ensures Upserted(Upserted(l, x), x) == Upserted(l, x)
  {
    var r := Upserted(l, x);
    var k := UpsertSlot(l, x.node);
    UpsertedWrites(l, x);
    UpsertSlotChoice(l, x.node);
    assert forall j :: 0 <= j < k ==> r[j].node != x.node by {
      forall j | 0 <= j < k ensures r[j].node != x.node {
        assert r[j] == l[j];
        if !Has(l, x.node) {
          assert !(0 <= j < |l| && l[j].node == x.node);
        }
      }
    }
    assert FirstWith(r, x.node) == Some(k);
  }

  /** `adList`'s insert: x's id is held afterwards, at one place; a missing id is appended, never put in a deleted entry. */
  lemma OverwrittenWrites(l: List, x: NodeWeight)
    ensures var r := Overwritten(l, x);
            && (Has(l, x.node) ==> |r| == |l| && exists k :: 0 <= k < |l| && l[k].node == x.node && r == l[k := x])
            && (!Has(l, x.node) ==> r == l + [x])
  {
    match FirstWith(l, x.node)
    case Some(i) =>
    case None =>
  }

  /** Like the upsert, `adList`'s insert keeps real ids distinct and every earlier neighbour. */
  lemma OverwriteKeepsDistinct(l: List, x: NodeWeight)
    requires x.node != -1 && DistinctIds(l)
    ensures var r := Overwritten(l, x);
            && DistinctIds(r) && Has(r, x.node)
            && (forall y :: Has(l, y) ==> Has(r, y))
  {
    var r := Overwritten(l, x);
    match FirstWith(l, x.node)
    case Some(i) =>
      assert r[i] == x;
      forall y | Has(l, y) ensures Has(r, y) {
        var j :| 0 <= j < |l| && l[j].node == y;
        assert r[j].node == y;
      }
    case None =>
      assert r[|l|] == x;
      forall y | Has(l, y) ensures Has(r, y) {
        var j :| 0 <= j < |l| && l[j].node == y;
        assert r[j] == l[j];
      }
  }

  /** Without deleted entries there is no slot to reuse, so the upsert is `adList`'s insert. */
  lemma UpsertedWithoutHoles(l: List, x: NodeWeight)
    requires !Has(l, -1)
    ensures Upserted(l, x) == Overwritten(l, x)
  {
  }

  /** Without duplicate ids, an entry holding a real id is the first with that id. */
  lemma FirstWithDistinct(l: List, q: nat)
    requires DistinctIds(l) && q < |l| && l[q].node != -1
    ensures FirstWith(l, l[q].node) == Some(q)
  {
    assert Has(l, l[q].node);
  }

  /** A concatenation holds an id exactly when one of its parts does. */
  lemma HasConcat(a: List, b: List, d: int)
    ensures Has(a + b, d) <==> Has(a, d) || Has(b, d)
  {
    if Has(a + b, d) {
      var j :| 0 <= j < |a + b| && (a + b)[j].node == d;
      if j >= |a| {
        assert b[j - |a|].node == d;
      }
    }
    if Has(a, d) {
      var j :| 0 <= j < |a| && a[j].node == d;
      assert (a + b)[j] == a[j];
    }
    if Has(b, d) {
      var j :| 0 <= j < |b| && b[j].node == d;
      assert (a + b)[|a| + j] == b[j];
    }
  }

  /** Writing entry k of a middle part is writing entry |a| + k of the whole. */
  lemma UpdateInside(a: List, m: List, z: List, k: nat, x: NodeWeight)
    requires k < |m|
    ensures a + m[k := x] + z == (a + m + z)[|a| + k := x]
  {
  }

  /** The real neighbours of l: its ids other than -1. */
  function Ids(l: List): set<int>
  {
    set j | 0 <= j < |l| && l[j].node != -1 :: l[j].node
  }

  /**
   * A degree d reported for vector l is at least l's number of real
   * neighbours, and exactly that number when l holds no deleted entry and
   * no id twice.
   */
  predicate CountsNeighbours(l: List, d: int)
  {
    && d >= |Ids(l)|
    && (DistinctIds(l) && !Has(l, -1) ==> d == |Ids(l)|)
  }

  /** Appending an entry adds its id to the real neighbours unless it is a deleted entry. */
  lemma IdsSnoc(p: List, x: NodeWeight)
    ensures Ids(p + [x]) == Ids(p) + (if x.node == -1 then {} else {x.node})
  {
    var l := p + [x];
    forall y | y in Ids(l) ensures y in Ids(p) + (if x.node == -1 then {} else {x.node}) {
      var j :| 0 <= j < |l| && l[j].node != -1 && l[j].node == y;
      if j < |p| { assert p[j] == l[j]; }
    }
    forall y | y in Ids(p) ensures y in Ids(l) {
      var j :| 0 <= j < |p| && p[j].node != -1 && p[j].node == y;
      assert l[j] == p[j];
    }
    assert x.node != -1 ==> l[|p|] == x && x.node in Ids(l);
  }

  /** A vector's length counts its real neighbours in the sense of `CountsNeighbours`. */
  lemma {:induction false} LengthCountsNeighbours(l: List)
    ensures CountsNeighbours(l, |l|)
  {
    if |l| > 0 {
      var p, x := l[..|l| - 1], l[|l| - 1];
      assert l == p + [x];
      LengthCountsNeighbours(p);
      IdsSnoc(p, x);
      if DistinctIds(l) && !Has(l, -1) {
        forall i, j | 0 <= i < j < |p| && p[i].node != -1 ensures p[i].node != p[j].node {
          assert l[i] == p[i] && l[j] == p[j];
        }
        forall j | 0 <= j < |p| ensures p[j].node != -1 {
          assert l[j] == p[j];
        }
        forall j | 0 <= j < |p| && p[j].node != -1 ensures p[j].node != x.node {
          assert l[j] == p[j];
        }
      }
    }
  }
}
