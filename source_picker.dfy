/**
 * `DynamicSourcePicker`: picks a random start vertex of non-zero
 * out-degree for the search algorithms, or returns the source the user
 * gave.  It draws up to `num_nodes` vertices from a uniform distribution
 * and gives up with -1 when the trial count reaches `num_nodes`.
 *
 * The generator (`mt19937` seeded with `kRandSeed`, fed through
 * `uniform_int_distribution(0, num_nodes - 1)`) is the fixed sequence of
 * values it yields, `draw(0), draw(1), ...`; the picker remembers how many
 * it has consumed.  The graph is seen through its node count and its
 * `out_degree`.
 */
module SourcePicker {

  /** Where the do-while loop stops: the last vertex drawn, the draw position after it, the trial count. */
  datatype Run = Run(source: int, pos: nat, trials: nat)

  /** What `PickNext` returns, and the draw position it leaves. */
  datatype Picked = Picked(source: int, pos: nat)

  /**
   * The do-while loop from draw position `pos` after `trials` trials: draw
   * a vertex, count the trial, and go on while the vertex has out-degree 0
   * and fewer than `numNodes` trials were made.
   */
  function Trials(draw: nat -> int, outDegree: int -> int, numNodes: int, pos: nat, trials: nat): Run
    decreases if trials < numNodes then numNodes - trials else 0
  {
    var source := draw(pos);
    if outDegree(source) == 0 && trials + 1 < numNodes then Trials(draw, outDegree, numNodes, pos + 1, trials + 1)
    else Run(source, pos + 1, trials + 1)
  }

  /** `PickNext()` as written: a trial count that reached `numNodes` yields -1, whatever the last draw was. */
  function Pick(givenSource: int, draw: nat -> int, pos: nat, numNodes: int, outDegree: int -> int): Picked
  {
    if givenSource != -1 then Picked(givenSource, pos)
    else if numNodes == 0 then Picked(-1, pos)
    else
      var r := Trials(draw, outDegree, numNodes, pos, 0);
      Picked(if r.trials == numNodes then -1 else r.source, r.pos)
  }

  /** `PickNext()` as intended: -1 only when the last draw also hit a vertex of out-degree 0. */
  function PickFixed(givenSource: int, draw: nat -> int, pos: nat, numNodes: int, outDegree: int -> int): Picked
  {
    if givenSource != -1 then Picked(givenSource, pos)
    else if numNodes == 0 then Picked(-1, pos)
    else
      var r := Trials(draw, outDegree, numNodes, pos, 0);
      Picked(if r.trials == numNodes && outDegree(r.source) == 0 then -1 else r.source, r.pos)
  }

  /**
   * The loop makes at least one draw and at most `numNodes - trials`; it
   * returns its last draw; every draw before the last hit out-degree 0; and
   * the last one has non-zero out-degree unless the trials ran out.
   */
  lemma {:induction false} TrialsMeaning(draw: nat -> int, outDegree: int -> int, numNodes: int, pos: nat, trials: nat)
    requires trials < numNodes
    ensures var r := Trials(draw, outDegree, numNodes, pos, trials);
            && pos < r.pos && r.trials == trials + (r.pos - pos) && r.trials <= numNodes
            && r.source == draw(r.pos - 1)
            && (forall k :: pos <= k < r.pos - 1 ==> outDegree(draw(k)) == 0)
            && (outDegree(r.source) != 0 || r.trials == numNodes)
    decreases numNodes - trials
  {
    var source := draw(pos);
    if outDegree(source) == 0 && trials + 1 < numNodes {
      TrialsMeaning(draw, outDegree, numNodes, pos + 1, trials + 1);
    }
  }

  /**
   * A given source comes back unchanged with no draw; an empty graph gives
   * -1 with no draw; otherwise at most `numNodes` vertices are drawn, and a
   * result other than -1 is the last of them and has non-zero out-degree.
   */
  lemma PickMeaning(givenSource: int, draw: nat -> int, pos: nat, numNodes: int, outDegree: int -> int)
    ensures givenSource != -1 ==> Pick(givenSource, draw, pos, numNodes, outDegree) == Picked(givenSource, pos)
    ensures givenSource == -1 && numNodes == 0 ==> Pick(givenSource, draw, pos, numNodes, outDegree) == Picked(-1, pos)
    ensures givenSource == -1 && numNodes > 0 ==>
              var p := Pick(givenSource, draw, pos, numNodes, outDegree);
              && pos < p.pos <= pos + numNodes
              && (p.source != -1 ==> p.source == draw(p.pos - 1) && outDegree(p.source) != 0)
  {
    if givenSource == -1 && numNodes > 0 {
      TrialsMeaning(draw, outDegree, numNodes, pos, 0);
    }
  }

  /** Every vertex drawn lies in the distribution's range, so a picked vertex does too. */
  lemma PickInRange(givenSource: int, draw: nat -> int, pos: nat, numNodes: int, outDegree: int -> int, range: int)
    requires forall k: nat :: 0 <= draw(k) < range
    requires givenSource == -1 && numNodes > 0
    ensures var p := Pick(givenSource, draw, pos, numNodes, outDegree);
            p.source == -1 || 0 <= p.source < range
  {
    TrialsMeaning(draw, outDegree, numNodes, pos, 0);
  }

  /**
   * The loop stops at the `numNodes`-th trial even when that draw found a
   * vertex of non-zero out-degree, and `PickNext` then still returns -1.
   */
  lemma PickDiscardsLastDraw(draw: nat -> int, pos: nat, numNodes: int, outDegree: int -> int)
    requires numNodes > 0
    requires forall k :: pos <= k < pos + numNodes - 1 ==> outDegree(draw(k)) == 0
    requires outDegree(draw(pos + numNodes - 1)) != 0
    ensures Pick(-1, draw, pos, numNodes, outDegree).source == -1
    ensures PickFixed(-1, draw, pos, numNodes, outDegree).source == draw(pos + numNodes - 1)
  {
    TrialsMeaning(draw, outDegree, numNodes, pos, 0);
  }

  /** On a one-vertex graph whose vertex has an edge, the as-written picker still returns -1. */
  lemma PickDiscardsOnlyVertex()
    ensures Pick(-1, _ => 0, 0, 1, _ => 1).source == -1
    ensures PickFixed(-1, _ => 0, 0, 1, _ => 1).source == 0
  {
  }

  /**
   * The intended picker returns -1 exactly when every one of the
   * `numNodes` draws hit a vertex of out-degree 0, and otherwise a drawn
   * vertex of non-zero out-degree.
   */
  lemma PickFixedMeaning(draw: nat -> int, pos: nat, numNodes: int, outDegree: int -> int)
    requires numNodes > 0
    requires forall k: nat :: 0 <= draw(k)
    ensures var p := PickFixed(-1, draw, pos, numNodes, outDegree);
            && (p.source == -1 <==> forall k :: pos <= k < pos + numNodes ==> outDegree(draw(k)) == 0)
            && (p.source != -1 ==> pos < p.pos && p.source == draw(p.pos - 1) && outDegree(p.source) != 0)
  {
    TrialsMeaning(draw, outDegree, numNodes, pos, 0);
    var r := Trials(draw, outDegree, numNodes, pos, 0);
    var p := PickFixed(-1, draw, pos, numNodes, outDegree);
    if p.source == -1 {
      assert r.pos == pos + numNodes && outDegree(draw(r.pos - 1)) == 0;
      forall k | pos <= k < pos + numNodes
        ensures outDegree(draw(k)) == 0
      {
        if k < r.pos - 1 { }
      }
    } else {
      assert outDegree(draw(r.pos - 1)) != 0;
    }
  }

  /** `DynamicSourcePicker`. */
  class DynamicSourcePicker {
    /** `given_source`. */
    const givenSource: int
    /** `num_nodes` when the picker was made: `udist` draws from [0, range). */
    const range: int
    /** The values `udist(rng)` yields, in order. */
    const draw: nat -> int
    /** How many values the generator has yielded so far. */
    var pos: nat

    /** `DynamicSourcePicker(p, given_source)`: the generator starts from its seed. */
    constructor (numNodes: int, givenSource: int, draw: nat -> int)
      requires forall k: nat :: 0 <= draw(k) < numNodes
      ensures this.givenSource == givenSource && range == numNodes && this.draw == draw && pos == 0
    {
      this.givenSource := givenSource;
      range := numNodes;
      this.draw := draw;
      pos := 0;
    }

    /** `PickNext()` against the graph's current node count and out-degrees. */
    method PickNext(numNodes: int, outDegree: int -> int) returns (source: int)
      modifies this
      ensures Picked(source, pos) == Pick(givenSource, draw, old(pos), numNodes, outDegree)
    {
      if givenSource != -1 {
        return givenSource;
      }
      if numNodes == 0 {
        return -1;
      }
      ghost var start := pos;
      var trials := 1;
      source := draw(pos);
      pos := pos + 1;
      while outDegree(source) == 0 && trials < numNodes
        invariant 1 <= trials && pos == start + trials && source == draw(pos - 1)
        invariant Trials(draw, outDegree, numNodes, start, 0) == Trials(draw, outDegree, numNodes, pos - 1, trials - 1)
        decreases numNodes - trials
      {
        trials := trials + 1;
        source := draw(pos);
        pos := pos + 1;
      }
      if trials == numNodes {
        source := -1;
      }
    }
  }
}
