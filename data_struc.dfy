// The bookkeeping every dynamic graph container shares (`dataStruc`):
// vertex and edge counters, the per-vertex `affected` flags an update
// batch raises, and the per-vertex `property` values of the algorithms.

module DataStruc {
  import opened Types

  /** Every endpoint of every edge of the batch is a vertex id below n. */
  predicate EndpointsBelow(el: seq<Edge>, n: nat)
  {
    forall i :: 0 <= i < |el| ==> 0 <= el[i].source < n && 0 <= el[i].destination < n
  }

  /** An edge of the batch touches vertex v. */
  predicate Touches(el: seq<Edge>, v: int)
  {
    exists i :: 0 <= i < |el| && (el[i].source == v || el[i].destination == v)
  }

  /** `affected[e.source] = true; affected[e.destination] = true` for each edge, in order. */
  function MarkAffected(aff: seq<bool>, el: seq<Edge>): (r: seq<bool>)
    requires EndpointsBelow(el, |aff|)
    ensures |r| == |aff|
  {
    if |el| == 0 then aff
    else
      var e := el[|el| - 1];
      MarkAffected(aff, el[..|el| - 1])[e.source := true][e.destination := true]
  }

  /** After a batch, a vertex is flagged exactly when it was before or an edge of the batch touches it. */
  lemma {:induction false} MarkAffectedExactly(aff: seq<bool>, el: seq<Edge>, v: int)
    requires EndpointsBelow(el, |aff|) && 0 <= v < |aff|
    ensures MarkAffected(aff, el)[v] <==> aff[v] || Touches(el, v)
  {
    if |el| > 0 {
      var init := el[..|el| - 1];
      var e := el[|el| - 1];
      MarkAffectedExactly(aff, init, v);
      if Touches(el, v) && !Touches(init, v) {
        var i :| 0 <= i < |el| && (el[i].source == v || el[i].destination == v);
        assert i == |el| - 1;
      }
      if Touches(init, v) {
        var i :| 0 <= i < |init| && (init[i].source == v || init[i].destination == v);
        assert el[i] == init[i];
      }
    }
  }

  /** Marking one more edge of the batch. */
  lemma MarkAffectedStep(aff: seq<bool>, el: seq<Edge>, i: nat)
    requires EndpointsBelow(el, |aff|) && i < |el|
    ensures EndpointsBelow(el[..i], |aff|) && EndpointsBelow(el[..i + 1], |aff|)
    ensures MarkAffected(aff, el[..i + 1]) == MarkAffected(aff, el[..i])[el[i].source := true][el[i].destination := true]
  {
    assert el[..i + 1][..i] == el[..i];
  }

  /** The vertices a batch adds: one for each endpoint whose `exists` flag is false. */
  function NewNodes(el: seq<Edge>): (n: nat)
    ensures n <= 2 * |el|
  {
    if |el| == 0 then 0
    else
      var e := el[|el| - 1];
      NewNodes(el[..|el| - 1]) + (if e.sourceExists then 0 else 1) + (if e.destExists then 0 else 1)
  }

  /** Counting one more edge of the batch. */
  lemma NewNodesStep(el: seq<Edge>, i: nat)
    requires i < |el|
    ensures NewNodes(el[..i + 1]) == NewNodes(el[..i]) + (if el[i].sourceExists then 0 else 1) + (if el[i].destExists then 0 else 1)
  {
    assert el[..i + 1][..i] == el[..i];
  }

  /** A batch whose every endpoint already exists adds no vertex. */
  lemma {:induction false} NoNewNodes(el: seq<Edge>)
    requires forall i :: 0 <= i < |el| ==> el[i].sourceExists && el[i].destExists
    ensures NewNodes(el) == 0
  {
    if |el| > 0 {
      NoNewNodes(el[..|el| - 1]);
    }
  }

  /** Counting the new vertices batch by batch is counting them over the concatenation. */
  lemma {:induction false} NewNodesAppend(a: seq<Edge>, b: seq<Edge>)
    ensures NewNodes(a + b) == NewNodes(a) + NewNodes(b)
    decreases |b|
  {
    if |b| == 0 {
      assert a + b == a;
    } else {
      assert (a + b)[..|a + b| - 1] == a + b[..|b| - 1];
      NewNodesAppend(a, b[..|b| - 1]);
    }
  }
}
