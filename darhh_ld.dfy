/**
 * The low-degree store `ld_rhh<T>` of the degree-aware container: an
 * `rhh<EdgeID, T>` whose key is the pair (source, destination) and whose
 * value is the neighbour record of the destination.
 *
 * `EdgeID % m` reduces the source alone, so every entry of a source v
 * wants the slot `v mod capacity`, and the entries of v all lie in the
 * probe run that starts there.  `get_degree(v)` and the iterator both scan
 * that run: they stop at the first empty slot or at the first resident
 * that sits closer to its own desired slot than the scan is to the origin.
 *
 * The store owns no state beyond the inherited table, so its operations
 * are methods on a `RobinHood.Table<EdgeId, NodeWeight>` whose `keyNum`
 * is the source id.  The iterator is a value (`Iter`) whose cursor is the
 * index of the slot whose value it points to.
 */
module LowDegree {
  import opened Types
  import R = RobinHood

  type Slots = seq<R.Slot<EdgeId, NodeWeight>>

  /** A table set up as an `ld_rhh`: valid, and hashing a key through its source id. */
  ghost predicate IsStore(t: R.Table<EdgeId, NodeWeight>)
    reads t, t.Repr
  {
    t.Valid() && forall e :: t.keyNum(e) == e.first
  }

  /** The scan origin of source v: `id % capacity`. */
  function Origin(v: int, cap: nat): (o: nat)
    requires cap > 0
    ensures o < cap
  {
    v % cap
  }

  /** With a capacity of at most 2^30, every key of source v has its desired slot at v's origin. */
  lemma EntriesShareOrigin(v: int, w: int, cap: nat)
    requires 0 < cap <= R.PosRange
    ensures R.DesiredPos(R.HashOf(EdgeId(v, w).first, cap)) == Origin(v, cap)
  {
    R.OriginFacts(v, cap);
    R.ModSmall(v % cap, R.PosRange);
  }

  // ---------------------------------------------------------------------
  // The probe run of a source
  // ---------------------------------------------------------------------

  /** `get_degree` goes on at offset d: the slot is non-empty and no closer to its own desired slot than d. */
  predicate InRun(s: Slots, origin: nat, d: nat)
    requires origin < |s| && d < |s| && R.WellFormed(s)
  {
    var p := R.At(origin, d, |s|);
    !R.IsEmpty(s[p]) && d <= R.ProbeDist(R.DesiredPos(s[p].hash), p, |s|)
  }

  /** The slot at offset d is a live entry of source v. */
  predicate Hit(s: Slots, v: int, origin: nat, d: nat)
    requires origin < |s| && d < |s|
  {
    var p := R.At(origin, d, |s|);
    s[p].key.first == v && !R.IsDeleted(s[p])
  }

  /**
   * The offsets, from d on, of the entries `get_degree(v)` counts: the
   * live entries of v in the run, in scan order.
   */
  function Counted(s: Slots, v: int, origin: nat, d: nat): (c: seq<nat>)
    requires origin < |s| && d <= |s| && R.WellFormed(s)
    ensures |c| <= |s| - d
    ensures forall i :: 0 <= i < |c| ==> d <= c[i] < |s| && InRun(s, origin, c[i]) && Hit(s, v, origin, c[i])
    ensures forall i, j :: 0 <= i < j < |c| ==> c[i] < c[j]
    decreases |s| - d
  {
    if d == |s| || !InRun(s, origin, d) then []
    else (if Hit(s, v, origin, d) then [d] else []) + Counted(s, v, origin, d + 1)
  }

  /** A counted slot holds a live entry whose key has source v. */
  lemma CountedAreLiveEntries(s: Slots, v: int, origin: nat, i: nat)
    requires origin < |s| && R.WellFormed(s) && i < |Counted(s, v, origin, 0)|
    ensures var p := R.At(origin, Counted(s, v, origin, 0)[i], |s|);
            R.IsLive(s[p]) && s[p].key.first == v
  {
  }

  /** `get_degree(id)`: count the live entries of the source along its run; the table is not changed. */
  method GetDegree(t: R.Table<EdgeId, NodeWeight>, v: int) returns (count: nat)
    requires t.Valid()
    ensures count == |Counted(t.arr[..], v, Origin(v, t.arr.Length), 0)|
    ensures count <= t.arr.Length
  {
    var cap := t.arr.Length;
    ghost var s := t.arr[..];
    var origin := Origin(v, cap);
    count := 0;
    var d := 0;
    while d < cap
      invariant d <= cap
      invariant count + |Counted(s, v, origin, d)| == |Counted(s, v, origin, 0)|
      decreases cap - d
    {
      R.AtIsSourceFormula(origin, d, cap);
      var pos := (origin + d) % cap;
      var elem := t.arr[pos];
      assert elem == s[R.At(origin, d, cap)];
      if R.IsEmpty(elem) {
        break;
      } else if d > R.ProbeDist(R.DesiredPos(elem.hash), pos, cap) {
        break;
      } else if elem.key.first == v && !R.IsDeleted(elem) {
        count := count + 1;
      }
      d := d + 1;
    }
  }

  // ---------------------------------------------------------------------
  // The iterator
  // ---------------------------------------------------------------------

  /** `ld_rhh::iter`: source, scan origin, current slot and cursor (the slot whose value it points to). */
  datatype Iter = Iter(src: int, origin: nat, pos: nat, cursor: Option<nat>)

  /** `operator==` and `operator!=` look at the cursors only. */
  predicate SameCursor(a: Iter, b: Iter)
  {
    a.cursor == b.cursor
  }

  /** `end(id)`: a null cursor (origin and position are left unset in the source). */
  function End(v: int): (it: Iter)
    ensures it.src == v && it.cursor.None?
  {
    Iter(v, 0, 0, None)
  }

  /**
   * Where a corrected `operator++` from offset d stops: the next offset
   * that leaves the run, holds a live entry of v, or completes the lap.
   */
  function ScanStop(s: Slots, v: int, origin: nat, d: nat): (e: nat)
    requires origin < |s| && d < |s| && R.WellFormed(s)
    ensures d < e <= |s|
    ensures e < |s| ==> !InRun(s, origin, e) || Hit(s, v, origin, e)
    ensures forall f :: d < f < e ==> InRun(s, origin, f) && !Hit(s, v, origin, f)
    decreases |s| - d
  {
    if d + 1 == |s| || !InRun(s, origin, d + 1) || Hit(s, v, origin, d + 1) then d + 1
    else ScanStop(s, v, origin, d + 1)
  }

  /** The cursor left at stop offset e: the slot, when it is a live entry of v in the run. */
  function CursorAt(s: Slots, v: int, origin: nat, e: nat): (c: Option<nat>)
    requires origin < |s| && e <= |s| && R.WellFormed(s)
    ensures c.Some? ==> e < |s| && c.value == R.At(origin, e, |s|)
  {
    if e < |s| && InRun(s, origin, e) && Hit(s, v, origin, e) then Some(R.At(origin, e, |s|)) else None
  }

  /** `operator++` with the lap test corrected: the iterator after one step. */
  function Advance(s: Slots, it: Iter): (r: Iter)
    requires it.origin < |s| && it.pos < |s| && R.WellFormed(s)
    ensures r.src == it.src && r.origin == it.origin && r.pos < |s|
  {
    var e := ScanStop(s, it.src, it.origin, R.ProbeDist(it.origin, it.pos, |s|));
    it.(pos := R.At(it.origin, e, |s|), cursor := CursorAt(s, it.src, it.origin, e))
  }

  /** The offset `begin(id)` stops at: the origin itself unless it holds no live entry of v. */
  function BeginOffset(s: Slots, v: int, origin: nat): (e: nat)
    requires origin < |s| && R.WellFormed(s)
    ensures e <= |s|
  {
    if !InRun(s, origin, 0) || Hit(s, v, origin, 0) then 0 else ScanStop(s, v, origin, 0)
  }

  /** The iterator `begin(id)` returns. */
  function BeginOf(s: Slots, v: int): (it: Iter)
    requires |s| > 0 && R.WellFormed(s)
    ensures it.src == v && it.origin == Origin(v, |s|) && it.pos < |s|
  {
    var o := Origin(v, |s|);
    var e := BeginOffset(s, v, o);
    Iter(v, o, R.At(o, e, |s|), CursorAt(s, v, o, e))
  }

  /** `operator++`, with the lap test corrected to stop where the scan is back at the origin. */
  method Increment(t: R.Table<EdgeId, NodeWeight>, it: Iter) returns (r: Iter)
    requires t.Valid() && it.origin < t.arr.Length && it.pos < t.arr.Length
    ensures r == Advance(t.arr[..], it)
  {
    var cap := t.arr.Length;
    ghost var s := t.arr[..];
    var origin, v := it.origin, it.src;
    var pos := it.pos;
    ghost var d0 := R.ProbeDist(origin, pos, cap);
    ghost var d := d0;
    R.AtOfProbeDist(origin, pos, cap);
    while true
      invariant d0 <= d < cap && pos == R.At(origin, d, cap)
      invariant ScanStop(s, v, origin, d) == ScanStop(s, v, origin, d0)
      decreases cap - d
    {
      R.AtNext(origin, d, cap);
      pos := (pos + 1) % cap;
      var pd := R.ProbeDist(origin, pos, cap);
      var elem := t.arr[pos];
      if d + 1 < cap {
        assert pd == d + 1;
      }
      if pd == 0 || R.IsEmpty(elem) || pd > R.ProbeDist(R.DesiredPos(elem.hash), pos, cap) {
        return it.(pos := pos, cursor := None);
      } else if elem.key.first == v && !R.IsDeleted(elem) {
        return it.(pos := pos, cursor := Some(pos));
      }
      d := d + 1;
    }
  }

  /** `begin(id)`: the first live entry of the source in its run, or a null cursor. */
  method Begin(t: R.Table<EdgeId, NodeWeight>, v: int) returns (it: Iter)
    requires t.Valid()
    ensures it == BeginOf(t.arr[..], v)
  {
    var cap := t.arr.Length;
    var origin := Origin(v, cap);
    it := Iter(v, origin, origin, None);
    var elem := t.arr[origin];
    assert R.At(origin, 0, cap) == origin;
    if R.IsEmpty(elem) {
      it := it.(cursor := None);
    } else if elem.key.first != v || R.IsDeleted(elem) {
      it := Increment(t, it);
    } else {
      it := it.(cursor := Some(origin));
    }
  }

  // ---------------------------------------------------------------------
  // Iterating from begin to end visits exactly what get_degree counts
  // ---------------------------------------------------------------------

  /** The offsets the cursor visits from stop offset e until it is null. */
  function Walk(s: Slots, v: int, origin: nat, e: nat): seq<nat>
    requires origin < |s| && e <= |s| && R.WellFormed(s)
    decreases |s| - e
  {
    if CursorAt(s, v, origin, e).None? then [] else [e] + Walk(s, v, origin, ScanStop(s, v, origin, e))
  }

  /** From any offset, the rest of the walk is what `get_degree` counts after it. */
  lemma {:induction false} WalkAfter(s: Slots, v: int, origin: nat, d: nat)
    requires origin < |s| && d < |s| && R.WellFormed(s)
    ensures Walk(s, v, origin, ScanStop(s, v, origin, d)) == Counted(s, v, origin, d + 1)
    decreases |s| - d
  {
    var e := d + 1;
    if e < |s| && InRun(s, origin, e) {
      WalkAfter(s, v, origin, e);
      if Hit(s, v, origin, e) {
        assert ScanStop(s, v, origin, d) == e;
      } else {
        assert ScanStop(s, v, origin, d) == ScanStop(s, v, origin, e);
      }
    }
  }

  /**
   * With the corrected lap test, `begin(v)` followed by `++` until the
   * cursor is null visits exactly the entries `get_degree(v)` counts, in
   * scan order; so it visits `get_degree(v)` slots.
   */
  lemma IterationMatchesDegree(s: Slots, v: int)
    requires |s| > 0 && R.WellFormed(s)
    ensures var o := Origin(v, |s|);
            Walk(s, v, o, BeginOffset(s, v, o)) == Counted(s, v, o, 0)
  {
    var o := Origin(v, |s|);
    if InRun(s, o, 0) {
      WalkAfter(s, v, o, 0);
    }
  }

  /** Each step of the walk is one `Advance` of the iterator. */
  lemma AdvanceFollowsWalk(s: Slots, v: int, origin: nat, e: nat)
    requires origin < |s| && e < |s| && R.WellFormed(s)
    ensures var it := Iter(v, origin, R.At(origin, e, |s|), CursorAt(s, v, origin, e));
            var e' := ScanStop(s, v, origin, e);
            Advance(s, it) == Iter(v, origin, R.At(origin, e', |s|), CursorAt(s, v, origin, e'))
  {
    R.ProbeDistOfAt(origin, e, |s|);
  }

  // ---------------------------------------------------------------------
  // operator++ as written
  // ---------------------------------------------------------------------

  /**
   * The `for (;;)` loop of `operator++` as written, from slot `pos` after n
   * turns.  Its lap test `probe_dist(origin, pos) == capacity` can never
   * hold, so the loop only stops at a slot outside the run or at a live
   * entry of v.  When a whole lap finds neither, the position is back where
   * it started and the loop turns forever: `None`.
   */
  function AsWrittenFrom(s: Slots, v: int, origin: nat, pos: nat, n: nat): Option<(nat, Option<nat>)>
    requires origin < |s| && pos < |s| && n <= |s| && R.WellFormed(s)
    decreases |s| - n
  {
    if n == |s| then None
    else
      var p := (pos + 1) % |s|;
      var pd := R.ProbeDist(origin, p, |s|);
      if pd == |s| || R.IsEmpty(s[p]) || pd > R.ProbeDist(R.DesiredPos(s[p].hash), p, |s|) then Some((p, None))
      else if s[p].key.first == v && !R.IsDeleted(s[p]) then Some((p, Some(p)))
      else AsWrittenFrom(s, v, origin, p, n + 1)
  }

  /** Within a lap the loop as written agrees with the corrected one. */
  lemma {:induction false} AsWrittenAgreesWithinLap(s: Slots, v: int, origin: nat, d: nat, n: nat)
    requires origin < |s| && d < |s| && n <= d && R.WellFormed(s)
    ensures var e := ScanStop(s, v, origin, d);
            e < |s| ==> AsWrittenFrom(s, v, origin, R.At(origin, d, |s|), n) == Some((R.At(origin, e, |s|), CursorAt(s, v, origin, e)))
    decreases |s| - d
  {
    var e := d + 1;
    if e < |s| {
      R.AtNext(origin, d, |s|);
      R.ProbeDistOfAt(origin, e, |s|);
      if InRun(s, origin, e) && !Hit(s, v, origin, e) {
        AsWrittenAgreesWithinLap(s, v, origin, e, n + 1);
      }
    }
  }

  /**
   * A reachable table on which the iteration as written never ends:
   * inserting (0, 1) and then (0, 2) into an empty two-slot store leaves
   * both entries in source 0's run.  `get_degree(0)` is 2 and the corrected
   * iteration visits slots 0 and 1, but `++` as written goes from slot 1
   * back to slot 0, so the cursor never becomes null.
   */
  lemma AsWrittenIterationCycles(blank: R.Slot<EdgeId, NodeWeight>)
    requires R.IsEmpty(blank)
    ensures var h := R.HashOf(0, 2);
            var x := R.Slot(EdgeId(0, 1), NodeWeight(1, -1), h);
            var y := R.Slot(EdgeId(0, 2), NodeWeight(2, -1), h);
            var s0 := [blank, blank];
            var s1 := R.ProbeRun(s0, 0, x.key, x.val, h, 0).0;
            && s1 == [x, blank]
            && R.ProbeRun(s1, 0, y.key, y.val, h, 0).0 == [x, y]
            && |Counted([x, y], 0, 0, 0)| == 2
            && Walk([x, y], 0, 0, BeginOffset([x, y], 0, 0)) == [0, 1]
            && BeginOf([x, y], 0).cursor == Some(0)
            && AsWrittenFrom([x, y], 0, 0, 0, 0) == Some((1, Some(1)))
            && AsWrittenFrom([x, y], 0, 0, 1, 0) == Some((0, Some(0)))
  {
    var h := R.HashOf(0, 2);
    assert h == R.LiveBit;
    var x := R.Slot(EdgeId(0, 1), NodeWeight(1, -1), h);
    var y := R.Slot(EdgeId(0, 2), NodeWeight(2, -1), h);
    var s0 := [blank, blank];
    assert R.LandsAt(s0, 0, x.key, h, 0);
    assert s0[0 := x] == [x, blank];
    var s1 := [x, blank];
    assert !R.LandsAt(s1, 0, y.key, h, 0);
    assert R.Carry(s1, 0, y.key, y.val, h, 0) == (s1, y.key, y.val, h);
    assert R.ProbeRun(s1, 0, y.key, y.val, h, 0) == R.ProbeOn(s1, 0, y.key, y.val, h, 0);
    assert R.LandsAt(s1, 0, y.key, h, 1);
    assert s1[1 := y] == [x, y];
    assert R.ProbeRun(s1, 0, y.key, y.val, h, 1) == ([x, y], R.Placed(false));
    var s := [x, y];
    assert InRun(s, 0, 0) && InRun(s, 0, 1) && Hit(s, 0, 0, 0) && Hit(s, 0, 0, 1);
    assert Counted(s, 0, 0, 1) == [1];
    assert ScanStop(s, 0, 0, 0) == 1;
    assert ScanStop(s, 0, 0, 1) == 2;
    assert Walk(s, 0, 0, 1) == [1];
  }

  // ---------------------------------------------------------------------
  // insert_elem
  // ---------------------------------------------------------------------

  /** The key an edge is stored under. */
  function EdgeKey(e: Edge): (k: EdgeId)
    ensures k.first == e.source && k.second == e.destination
  {
    EdgeId(e.source, e.destination)
  }

  /** The neighbour record an edge stores: the destination, with the weight when weighted. */
  function EdgeValue(weighted: bool, e: Edge): (n: NodeWeight)
    ensures n == Info(weighted, e.destination, e.weight)
  {
    Info(weighted, e.destination, e.weight)
  }

  /**
   * `insert_elem(edge)`: upsert key (source, destination) with the
   * destination's record, through the Robin-Hood insertion.
   */
  method InsertEdge(t: R.Table<EdgeId, NodeWeight>, weighted: bool, e: Edge)
    returns (r: R.InsertOutcome<EdgeId, NodeWeight>)
    requires IsStore(t)
    modifies t, t.arr
    ensures IsStore(t) && (t.arr == old(t.arr) || fresh(t.arr))
    ensures !old(t.NeedsDouble()) ==> t.arr == old(t.arr)
    ensures R.NoTombstones(old(t.arr[..])) && R.NonEmptyCount(old(t.arr[..])) == old(t.size) ==> !r.Unfinished?
    ensures R.LiveOf(t.arr[..]) <= old(R.LiveOf(t.arr[..])) + multiset{(EdgeKey(e), EdgeValue(weighted, e))}
    ensures R.KeysDistinct(old(R.LiveOf(t.arr[..])) + multiset{(EdgeKey(e), EdgeValue(weighted, e))}) && !r.Unfinished? ==>
              R.LiveOf(t.arr[..]) == old(R.LiveOf(t.arr[..])) + multiset{(EdgeKey(e), EdgeValue(weighted, e))}
    ensures R.NonEmptyCount(old(t.arr[..])) <= old(t.size) ==> !r.Unfinished? && R.NonEmptyCount(t.arr[..]) <= t.size
  {
    ghost var s0 := t.arr[..];
    ghost var size0 := t.size;
    ghost var grows := t.NeedsDouble();
    var id := EdgeKey(e);
    var node := EdgeValue(weighted, e);
    r := t.InsertElem(id, node);
    if !grows && R.NonEmptyCount(s0) <= size0 {
      // Without doubling, size < capacity, so some slot is empty and the probe lands.
      var h := R.HashOf(e.source, |s0|);
      R.OriginFacts(e.source, |s0|);
      R.ProbeRunFinishes(s0, R.DesiredPos(h), id, node, h);
      R.ProbeRunCounts(s0, R.DesiredPos(h), id, node, h, 0);
      R.LoadBound(size0, |s0|, t.lfNum, t.lfDen);
    }
  }
}
