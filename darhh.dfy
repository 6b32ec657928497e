/**
 * The degree-aware container `darhh<T>`: edges are split over partitions
 * by `pt_hash(source) = source mod num_out_partitions`; each partition
 * keeps a low-degree store (`ld_rhh`, one shared table keyed by the pair
 * (source, destination)) and a high-degree store (`hd_rhh`, one table per
 * source).  A source lives in the low store until its low degree reaches
 * `ld_threshold = 2`; the next edge migrates all of its entries to the
 * high store (`transfer_low_to_high`).
 *
 * `update` hands every edge to the queue of the partition of its source,
 * and its reverse to the partition of its destination, and one thread per
 * partition drains its queue in order.  The model keeps that order and
 * drops the threads: the queues are built first and each partition then
 * applies its queue edge by edge.
 */
module DegreeAware {
  import opened Types
  import R = RobinHood
  import L = LowDegree
  import H = HighDegree
  import D = DataStruc
  import opened Routing

  type Slots = seq<R.Slot<EdgeId, NodeWeight>>

  /** `ld_threshold`: the low degree at which a source moves to the high store. */
  const LdThreshold: nat := 2

  /** The capacity 2^20 of a partition's low-degree table (`ld_rhh()`). */
  const LdCap: nat := 0x10_0000

  lemma LdCapIsPow2()
    ensures R.IsPow2(LdCap)
  {
    assert R.IsPow2(1);
    assert R.IsPow2(2);
    assert R.IsPow2(4);
    assert R.IsPow2(8);
    assert R.IsPow2(0x10);
    assert R.IsPow2(0x20);
    assert R.IsPow2(0x40);
    assert R.IsPow2(0x80);
    assert R.IsPow2(0x100);
    assert R.IsPow2(0x200);
    assert R.IsPow2(0x400);
    assert R.IsPow2(0x800);
    assert R.IsPow2(0x1000);
    assert R.IsPow2(0x2000);
    assert R.IsPow2(0x4000);
    assert R.IsPow2(0x8000);
    assert R.IsPow2(0x1_0000);
    assert R.IsPow2(0x2_0000);
    assert R.IsPow2(0x4_0000);
    assert R.IsPow2(0x8_0000);
  }

  // ---------------------------------------------------------------------
  // Tombstoning the entries of a source along its run
  // ---------------------------------------------------------------------

  predicate Increasing(cs: seq<nat>)
  {
    forall i, j :: 0 <= i < j < |cs| ==> cs[i] < cs[j]
  }

  /** The slots at the given offsets of the run from `origin`, made tombstones one after another. */
  function TombAll(s: Slots, o: nat, cs: seq<nat>): (t: Slots)
    requires o < |s| && R.WellFormed(s) && forall j :: 0 <= j < |cs| ==> cs[j] < |s|
    ensures |t| == |s| && R.WellFormed(t)
  {
    if |cs| == 0 then s else R.Tombstone(TombAll(s, o, cs[..|cs| - 1]), R.At(o, cs[|cs| - 1], |s|))
  }

  /** After `TombAll`, the slot at offset f is a tombstone of its old self if f was listed, else unchanged. */
  lemma {:induction false} TombAllAt(s: Slots, o: nat, cs: seq<nat>, f: nat)
    requires o < |s| && R.WellFormed(s) && f < |s| && Increasing(cs)
    requires forall j :: 0 <= j < |cs| ==> cs[j] < |s|
    ensures var p := R.At(o, f, |s|);
            TombAll(s, o, cs)[p] == if f in cs then s[p].(hash := R.MarkDeleted(s[p].hash)) else s[p]
  {
    if |cs| > 0 {
      var init := cs[..|cs| - 1];
      var l := cs[|cs| - 1];
      TombAllAt(s, o, init, f);
      if f == l {
        assert f !in init;
      } else {
        R.AtDistinct(o, f, l, |s|);
        assert cs == init + [l];
      }
    }
  }

  /** Tombstoning one more listed offset is one more step of `TombAll`. */
  lemma TombStep(s: Slots, o: nat, cs: seq<nat>, e: nat, cur: Slots)
    requires o < |s| && e < |s| && R.WellFormed(s) && forall j :: 0 <= j < |cs| ==> cs[j] < |s|
    requires cur == TombAll(s, o, cs)
    ensures var p := R.At(o, e, |s|);
            TombAll(s, o, cs + [e]) == cur[p := cur[p].(hash := R.MarkDeleted(cur[p].hash))]
  {
    assert (cs + [e])[..|cs|] == cs;
  }

  /**
   * A scan of `operator++` only looks ahead of its current offset d: two
   * tables that agree there stop at the same offset with the same cursor.
   */
  lemma {:induction false} ScanAgrees(s: Slots, t: Slots, v: int, o: nat, d: nat)
    requires |t| == |s| && o < |s| && d < |s| && R.WellFormed(s) && R.WellFormed(t)
    requires forall f :: d < f < |s| ==> t[R.At(o, f, |s|)] == s[R.At(o, f, |s|)]
    ensures L.ScanStop(t, v, o, d) == L.ScanStop(s, v, o, d)
    ensures L.CursorAt(t, v, o, L.ScanStop(s, v, o, d)) == L.CursorAt(s, v, o, L.ScanStop(s, v, o, d))
    decreases |s| - d
  {
    if d + 1 < |s| {
      assert t[R.At(o, d + 1, |s|)] == s[R.At(o, d + 1, |s|)];
      if L.InRun(s, o, d + 1) && !L.Hit(s, v, o, d + 1) {
        ScanAgrees(s, t, v, o, d + 1);
      }
    }
  }

  /** What `get_degree` counts from offset d + 1 on, it also counts from d. */
  lemma CountedTail(s: Slots, v: int, o: nat, d: nat, f: nat)
    requires o < |s| && d < |s| && R.WellFormed(s) && L.InRun(s, o, d)
    requires f !in L.Counted(s, v, o, d)
    ensures f !in L.Counted(s, v, o, d + 1)
  {
    var here: seq<nat> := if L.Hit(s, v, o, d) then [d] else [];
    assert L.Counted(s, v, o, d) == here + L.Counted(s, v, o, d + 1);
  }

  /**
   * If t has the run of s, and every live entry of v that t still shows
   * in it was already one in s but not one `get_degree` counted, then t
   * has none left to count.
   */
  lemma {:induction false} CountedGone(s: Slots, t: Slots, v: int, o: nat, d: nat)
    requires |t| == |s| && o < |s| && d <= |s| && R.WellFormed(s) && R.WellFormed(t)
    requires forall f :: d <= f < |s| ==> L.InRun(t, o, f) == L.InRun(s, o, f)
    requires forall f :: d <= f < |s| && L.Hit(t, v, o, f) ==> L.Hit(s, v, o, f) && f !in L.Counted(s, v, o, d)
    ensures L.Counted(t, v, o, d) == []
    decreases |s| - d
  {
    if d < |s| && L.InRun(s, o, d) {
      assert !L.Hit(t, v, o, d);
      forall f | d + 1 <= f < |s| && L.Hit(t, v, o, f)
        ensures f !in L.Counted(s, v, o, d + 1)
      {
        CountedTail(s, v, o, d, f);
      }
      CountedGone(s, t, v, o, d + 1);
      assert L.Counted(t, v, o, d) == [] + L.Counted(t, v, o, d + 1);
    } else if d < |s| {
      assert !L.InRun(t, o, d);
    }
  }

  /**
   * Tombstoning every entry `get_degree(v)` counts leaves the low degree
   * of v at 0: a tombstone keeps its slot in the run but is no longer a
   * live entry.
   */
  lemma TombstonedRunCountsNothing(s: Slots, v: int)
    requires |s| > 0 && R.WellFormed(s)
    ensures var o := L.Origin(v, |s|);
            L.Counted(TombAll(s, o, L.Counted(s, v, o, 0)), v, o, 0) == []
  {
    var o := L.Origin(v, |s|);
    var c := L.Counted(s, v, o, 0);
    var t := TombAll(s, o, c);
    forall f | 0 <= f < |s|
      ensures L.InRun(t, o, f) == L.InRun(s, o, f)
      ensures L.Hit(t, v, o, f) ==> L.Hit(s, v, o, f) && f !in c
    {
      var p := R.At(o, f, |s|);
      TombAllAt(s, o, c, f);
      if f in c {
        R.MarkDeletedFacts(s[p].hash);
        assert !R.IsEmpty(s[p]);
      }
    }
    CountedGone(s, t, v, o, 0);
  }

  // ---------------------------------------------------------------------
  // What a migration moves
  // ---------------------------------------------------------------------

  /**
   * The pair `transfer_low_to_high` hands to the high store for a low slot:
   * the neighbour id of the slot's value, with its weight as the neighbour
   * type reports it.
   */
  function MovedPair(weighted: bool, x: R.Slot<EdgeId, NodeWeight>): (p: (int, NodeWeight))
    ensures p.0 == x.val.node && p.1.node == x.val.node
  {
    (x.val.node, Info(weighted, x.val.node, x.val.weight))
  }

  /** The slots at the given offsets of the run from `o`, in that order. */
  function SlotsAlong(s: Slots, o: nat, cs: seq<nat>): (xs: Slots)
    requires o < |s| && forall j :: 0 <= j < |cs| ==> cs[j] < |s|
    ensures |xs| == |cs| && forall j :: 0 <= j < |cs| ==> xs[j] == s[R.At(o, cs[j], |s|)]
  {
    seq(|cs|, j requires 0 <= j < |cs| => s[R.At(o, cs[j], |s|)])
  }

  /** The (key, value) entries of the given slots, as the low store held them. */
  ghost function ItemsOf(xs: Slots): multiset<Entry>
  {
    if |xs| == 0 then multiset{} else ItemsOf(xs[..|xs| - 1]) + multiset{(xs[|xs| - 1].key, xs[|xs| - 1].val)}
  }

  lemma ItemsOfPrefix(xs: Slots, i: nat)
    requires i < |xs|
    ensures ItemsOf(xs[..i + 1]) == ItemsOf(xs[..i]) + multiset{(xs[i].key, xs[i].val)}
  {
    assert xs[..i + 1][..i] == xs[..i];
  }

  /**
   * What the low-store side of `transfer_low_to_high(v)` has done when its
   * iterator `it` stands at offset e: the offsets in `visited` (the walk so
   * far) are tombstoned in `cur`, their original slots are collected in
   * `xs`, and the rest of the walk from e completes `all`.
   */
  ghost predicate TransferAt(s: Slots, v: int, o: nat, e: nat, visited: seq<nat>, all: seq<nat>,
                             xs: Slots, cur: Slots, it: L.Iter)
  {
    o < |s| && e <= |s| && |cur| == |s| && R.WellFormed(s) && TransferFrom(s, v, o, e, visited, all, xs, cur, it, 1)
  }

  /**
   * The facts of `TransferAt` counted down from k: the count keeps them
   * folded while the loop carries them, and `TransferStep` unfolds them.
   */
  ghost predicate TransferFrom(s: Slots, v: int, o: nat, e: nat, visited: seq<nat>, all: seq<nat>,
                               xs: Slots, cur: Slots, it: L.Iter, k: nat)
  {
    if k > 0 then TransferFrom(s, v, o, e, visited, all, xs, cur, it, k - 1) else
    && o < |s| && R.WellFormed(s) && e <= |s|
    && Increasing(visited) && (forall j :: 0 <= j < |visited| ==> visited[j] < e)
    && it == L.Iter(v, o, R.At(o, e, |s|), L.CursorAt(s, v, o, e))
    && visited + L.Walk(s, v, o, e) == all
    && cur == TombAll(s, o, visited)
    && xs == SlotsAlong(s, o, visited)
  }

  lemma SlotsAlongSnoc(s: Slots, o: nat, cs: seq<nat>, e: nat)
    requires o < |s| && e < |s| && forall j :: 0 <= j < |cs| ==> cs[j] < |s|
    ensures SlotsAlong(s, o, cs + [e]) == SlotsAlong(s, o, cs) + [s[R.At(o, e, |s|)]]
  {
  }

  /**
   * Stepping the iterator over a table whose tombstones all lie at or
   * behind offset e sees what it would see over the original table.
   */
  lemma AdvanceOverTombs(s: Slots, t: Slots, v: int, o: nat, e: nat, cs: seq<nat>)
    requires o < |s| && e < |s| && R.WellFormed(s) && Increasing(cs)
    requires forall j :: 0 <= j < |cs| ==> cs[j] <= e
    requires t == TombAll(s, o, cs)
    ensures var e' := L.ScanStop(s, v, o, e);
            L.Advance(t, L.Iter(v, o, R.At(o, e, |s|), L.CursorAt(s, v, o, e)))
              == L.Iter(v, o, R.At(o, e', |s|), L.CursorAt(s, v, o, e'))
  {
    var cap := |s|;
    forall f | e < f < cap
      ensures t[R.At(o, f, cap)] == s[R.At(o, f, cap)]
    {
      TombAllAt(s, o, cs, f);
    }
    ScanAgrees(s, t, v, o, e);
    R.ProbeDistOfAt(o, e, cap);
  }

  /** The tombstone side of one transfer turn: marking offset e extends `TombAll` by e. */
  lemma TombNext(s: Slots, o: nat, e: nat, visited: seq<nat>, cur: Slots)
    requires o < |s| && e < |s| && R.WellFormed(s)
    requires Increasing(visited) && forall j :: 0 <= j < |visited| ==> visited[j] < e
    requires cur == TombAll(s, o, visited)
    ensures cur[R.At(o, e, |s|)] == s[R.At(o, e, |s|)]
    ensures var p := R.At(o, e, |s|);
            var next := cur[p := cur[p].(hash := R.MarkDeleted(cur[p].hash))];
            Increasing(visited + [e]) && next == TombAll(s, o, visited + [e])
  {
    TombAllAt(s, o, visited, e);
    TombStep(s, o, visited, e, cur);
  }

  /** The walk side of one transfer turn: e joins the visited offsets and the walk goes on from the next stop. */
  lemma WalkNext(s: Slots, v: int, o: nat, e: nat, visited: seq<nat>, all: seq<nat>)
    requires o < |s| && e < |s| && R.WellFormed(s) && L.CursorAt(s, v, o, e).Some?
    requires forall j :: 0 <= j < |visited| ==> visited[j] < e
    requires visited + L.Walk(s, v, o, e) == all
    ensures var e' := L.ScanStop(s, v, o, e);
            && (visited + [e]) + L.Walk(s, v, o, e') == all
            && forall j :: 0 <= j < |visited + [e]| ==> (visited + [e])[j] < e'
  {
    var e' := L.ScanStop(s, v, o, e);
    assert L.Walk(s, v, o, e) == [e] + L.Walk(s, v, o, e');
    assert (visited + [e]) + L.Walk(s, v, o, e') == visited + L.Walk(s, v, o, e);
  }

  /**
   * One turn of the transfer loop on the low store: the slot under the
   * cursor is still the original entry, and tombstoning it then stepping
   * the iterator re-establishes `TransferAt` one offset of the walk later.
   */
  lemma TransferStep(s: Slots, v: int, o: nat, e: nat, visited: seq<nat>, all: seq<nat>,
                     xs: Slots, cur: Slots, it: L.Iter)
    requires TransferAt(s, v, o, e, visited, all, xs, cur, it) && it.cursor.Some?
    ensures e < |s| && it.cursor.value == R.At(o, e, |s|) && it.pos < |s| && it.origin == o
    ensures cur[R.At(o, e, |s|)] == s[R.At(o, e, |s|)]
    ensures var p := R.At(o, e, |s|);
            var next := cur[p := cur[p].(hash := R.MarkDeleted(cur[p].hash))];
            R.WellFormed(next) &&
            TransferAt(s, v, o, L.ScanStop(s, v, o, e), visited + [e], all, xs + [cur[p]], next, L.Advance(next, it))
  {
    assert TransferFrom(s, v, o, e, visited, all, xs, cur, it, 0);
    TombNext(s, o, e, visited, cur);
    AdvanceOverTombs(s, TombAll(s, o, visited + [e]), v, o, e, visited + [e]);
    SlotsAlongSnoc(s, o, visited, e);
    WalkNext(s, v, o, e, visited, all);
    var p := R.At(o, e, |s|);
    var next := cur[p := cur[p].(hash := R.MarkDeleted(cur[p].hash))];
    assert TransferFrom(s, v, o, L.ScanStop(s, v, o, e), visited + [e], all, xs + [cur[p]], next, L.Advance(next, it), 0);
  }

  /** The (neighbour, weight) pair the high store keeps for edge e, under the edge's source. */
  function HighPair(weighted: bool, e: Edge): (int, NodeWeight)
  {
    (e.destination, Info(weighted, e.destination, e.weight))
  }

  // ---------------------------------------------------------------------
  // What a partition holds
  // ---------------------------------------------------------------------

  /**
   * An edge as a partition holds it: the key (source, destination) and the
   * neighbour record.  The low store keeps exactly these pairs; the high
   * store keeps (destination, record) in the chunk of the source.
   */
  type Entry = (EdgeId, NodeWeight)

  type ChunkSlots = seq<R.Slot<int, NodeWeight>>

  /** The entry `insert(e)` adds. */
  function EntryOf(weighted: bool, e: Edge): (x: Entry)
    ensures x.0 == EdgeId(e.source, e.destination) && x.1 == Info(weighted, e.destination, e.weight)
  {
    (L.EdgeKey(e), L.EdgeValue(weighted, e))
  }

  /** The entries of the edges q, counted with multiplicity. */
  ghost function Entries(weighted: bool, q: seq<Edge>): multiset<Entry>
  {
    if |q| == 0 then multiset{} else Entries(weighted, q[..|q| - 1]) + multiset{EntryOf(weighted, q[|q| - 1])}
  }

  lemma EntriesPrefix(weighted: bool, q: seq<Edge>, i: nat)
    requires i < |q|
    ensures Entries(weighted, q[..i + 1]) == Entries(weighted, q[..i]) + multiset{EntryOf(weighted, q[i])}
  {
    assert q[..i + 1][..i] == q[..i];
  }

  /** Having taken the entries of q[..i], then the entry of q[i], is having taken those of q[..i + 1]. */
  lemma TookNext(weighted: bool, q: seq<Edge>, i: nat, a: multiset<Entry>, b: multiset<Entry>, c: multiset<Entry>)
    requires i < |q| && Took(a, Entries(weighted, q[..i]), b) && Took(b, multiset{EntryOf(weighted, q[i])}, c)
    ensures Took(a, Entries(weighted, q[..i + 1]), c)
  {
    EntriesPrefix(weighted, q, i);
    TookTrans(a, Entries(weighted, q[..i]), b, multiset{EntryOf(weighted, q[i])}, c);
  }

  /** An entry as `insert` makes it: the record names the destination, and carries no weight when unweighted. */
  predicate EntryOk(weighted: bool, x: Entry)
  {
    x.0.second == x.1.node && (weighted || x.1.weight == -1)
  }

  /**
   * A store went from `before` to `after` taking the pairs `added`: it
   * holds at most the old pairs and the added ones, and exactly those when
   * no key occurs twice among them (an upsert of a present key replaces
   * its value instead).
   */
  ghost predicate Took<K, V>(before: multiset<(K, V)>, added: multiset<(K, V)>, after: multiset<(K, V)>)
  {
    TookFrom(before, added, after, 1)
  }

  /**
   * `Took` counted down from k: the count keeps the definition folded
   * where a proof only passes `Took` facts along, and `TookIs` unfolds it.
   */
  ghost predicate TookFrom<K, V>(before: multiset<(K, V)>, added: multiset<(K, V)>, after: multiset<(K, V)>, k: nat)
  {
    if k == 0 then after <= before + added && (R.KeysDistinct(before + added) ==> after == before + added)
    else TookFrom(before, added, after, k - 1)
  }

  /** What `Took` says, unfolded. */
  lemma TookIs<K, V>(before: multiset<(K, V)>, added: multiset<(K, V)>, after: multiset<(K, V)>)
    ensures Took(before, added, after) <==>
              after <= before + added && (R.KeysDistinct(before + added) ==> after == before + added)
  {
    assert TookFrom(before, added, after, 0) <==>
             after <= before + added && (R.KeysDistinct(before + added) ==> after == before + added);
  }

  /** Taking m and then n is taking m + n. */
  lemma TookTrans<K, V>(a: multiset<(K, V)>, m: multiset<(K, V)>, b: multiset<(K, V)>,
                        n: multiset<(K, V)>, c: multiset<(K, V)>)
    requires Took(a, m, b) && Took(b, n, c)
    ensures Took(a, m + n, c)
  {
    TookIs(a, m, b);
    TookIs(b, n, c);
    assert a + (m + n) == (a + m) + n;
    if R.KeysDistinct(a + (m + n)) {
      R.KeysDistinctSub(a + (m + n), a + m);
      assert b == a + m;
    }
  }

  /** Whatever else is held alongside, untouched, a store taking m is still taking m. */
  lemma TookBeside<K, V>(a: multiset<(K, V)>, m: multiset<(K, V)>, b: multiset<(K, V)>, x: multiset<(K, V)>)
    requires Took(a, m, b)
    ensures Took(x + a, m, x + b)
  {
    TookIs(a, m, b);
    assert x + a + m == x + (a + m);
    if R.KeysDistinct(x + a + m) {
      R.KeysDistinctSub(x + a + m, a + m);
    }
  }

  /** Taking m beside a part x that stays: the right-hand form of `TookBeside`. */
  lemma TookAfter<K, V>(a: multiset<(K, V)>, m: multiset<(K, V)>, b: multiset<(K, V)>, x: multiset<(K, V)>)
    requires Took(a, m, b)
    ensures Took(a + x, m, b + x)
  {
    TookIs(a, m, b);
    assert a + x + m == a + m + x;
    if R.KeysDistinct(a + x + m) {
      R.KeysDistinctSub(a + x + m, a + m);
    }
  }

  /** What held c0 handed over es, then took es back, at most: it holds at most c0 again. */
  lemma TookHandedOver<K, V>(c0: multiset<(K, V)>, c1: multiset<(K, V)>, es: multiset<(K, V)>, c2: multiset<(K, V)>)
    requires c1 + es == c0 && Took(c1, es, c2)
    ensures Took(c0, multiset{}, c2)
  {
    TookIs(c1, es, c2);
    assert c0 + multiset{} == c1 + es;
  }


  /** The entry for pair p of source v's chunk. */
  function Lift(v: int, p: (int, NodeWeight)): (y: Entry)
    ensures y.0.first == v && y.0.second == p.0 && y.1 == p.1
  {
    (EdgeId(v, p.0), p.1)
  }

  /**
   * The multiplicity of x in m.  The quantified facts about entries below
   * speak of it rather than of `m[x]`, so that they apply only where a
   * count is named.
   */
  ghost function Mult<T>(m: multiset<T>, x: T): nat
  {
    m[x]
  }

  /**
   * Entries es are the pairs ps of source v: an entry of v occurs as often
   * as its pair does in ps, an entry of any other source not at all.
   */
  ghost predicate LiftsTo(v: int, ps: multiset<(int, NodeWeight)>, es: multiset<Entry>)
  {
    forall y: Entry {:trigger Mult(es, y)} :: Mult(es, y) == if y.0.first == v then Mult(ps, (y.0.second, y.1)) else 0
  }

  /** One pair of v lifts to its entry. */
  lemma LiftsOne(v: int, p: (int, NodeWeight))
    ensures LiftsTo(v, multiset{p}, multiset{Lift(v, p)})
  {
    forall y: Entry {:trigger Mult(multiset{Lift(v, p)}, y)}
      ensures Mult(multiset{Lift(v, p)}, y) == if y.0.first == v then Mult(multiset{p}, (y.0.second, y.1)) else 0
    {
      assert Lift(v, p) == y <==> y.0.first == v && p == (y.0.second, y.1);
    }
  }

  /** Lifting is additive. */
  lemma LiftsAdd(v: int, ps: multiset<(int, NodeWeight)>, es: multiset<Entry>,
                 qs: multiset<(int, NodeWeight)>, fs: multiset<Entry>)
    requires LiftsTo(v, ps, es) && LiftsTo(v, qs, fs)
    ensures LiftsTo(v, ps + qs, es + fs)
  {
    forall y: Entry {:trigger Mult(es + fs, y)}
      ensures Mult(es + fs, y) == if y.0.first == v then Mult(ps + qs, (y.0.second, y.1)) else 0
    {
      assert Mult(es, y) + Mult(fs, y) == Mult(es + fs, y);
      assert Mult(ps, (y.0.second, y.1)) + Mult(qs, (y.0.second, y.1)) == Mult(ps + qs, (y.0.second, y.1));
    }
  }

  /** The entries of the pairs ps of source v. */
  ghost function LiftAll(v: int, ps: multiset<(int, NodeWeight)>): multiset<Entry>
    decreases |ps|
  {
    if ps == multiset{} then multiset{}
    else
      var p :| p in ps;
      LiftAll(v, ps - multiset{p}) + multiset{Lift(v, p)}
  }

  lemma {:induction false} LiftAllLifts(v: int, ps: multiset<(int, NodeWeight)>)
    ensures LiftsTo(v, ps, LiftAll(v, ps))
    decreases |ps|
  {
    if ps == multiset{} {
      assert forall y: Entry {:trigger Mult(multiset{}, y)} :: Mult(multiset{}, y) == 0;
    } else {
      var p :| p in ps && LiftAll(v, ps) == LiftAll(v, ps - multiset{p}) + multiset{Lift(v, p)};
      LiftAllLifts(v, ps - multiset{p});
      LiftsOne(v, p);
      LiftsAdd(v, ps - multiset{p}, LiftAll(v, ps - multiset{p}), multiset{p}, multiset{Lift(v, p)});
      assert ps - multiset{p} + multiset{p} == ps;
    }
  }

  /**
   * The entries a high store holds, given each vertex's pairs: every pair
   * (d, record) of vertex v stands for entry ((v, d), record).
   */
  ghost function Flatten(pm: map<int, multiset<(int, NodeWeight)>>): multiset<Entry>
    decreases |pm.Keys|
  {
    if forall u :: u !in pm then multiset{}
    else
      var v :| v in pm;
      assert (pm - {v}).Keys == pm.Keys - {v};
      LiftAll(v, pm[v]) + Flatten(pm - {v})
  }

  /** An entry occurs in the flattened map as often as its pair does among its source's pairs. */
  lemma {:induction false} FlattenCount(pm: map<int, multiset<(int, NodeWeight)>>, y: Entry)
    ensures Mult(Flatten(pm), y) == Mult(H.PairsIn(pm, y.0.first), (y.0.second, y.1))
    decreases |pm.Keys|
  {
    if exists u :: u in pm {
      var v :| v in pm && Flatten(pm) == LiftAll(v, pm[v]) + Flatten(pm - {v});
      assert (pm - {v}).Keys == pm.Keys - {v};
      FlattenCount(pm - {v}, y);
      LiftAllLifts(v, pm[v]);
      assert Mult(LiftAll(v, pm[v]), y) == if y.0.first == v then Mult(pm[v], (y.0.second, y.1)) else 0;
      assert Mult(Flatten(pm), y) == Mult(LiftAll(v, pm[v]), y) + Mult(Flatten(pm - {v}), y);
    }
  }

  /** Distinct keys among the entries of pm with the next ones give distinct keys among v's pairs with its next pairs. */
  lemma FlatDistinct(pm: map<int, multiset<(int, NodeWeight)>>, v: int,
                     ps: multiset<(int, NodeWeight)>, es: multiset<Entry>)
    requires LiftsTo(v, ps, es) && R.KeysDistinct(Flatten(pm) + es)
    ensures R.KeysDistinct(H.PairsIn(pm, v) + ps)
  {
    var m := H.PairsIn(pm, v) + ps;
    var big := Flatten(pm) + es;
    forall a, b | a in m && b in m && R.SameKey(a, b)
      ensures a == b && m[a] == 1
    {
      FlattenCount(pm, Lift(v, a));
      FlattenCount(pm, Lift(v, b));
      assert Mult(es, Lift(v, a)) == Mult(ps, a) && Mult(es, Lift(v, b)) == Mult(ps, b);
      assert big[Lift(v, a)] == m[a];
      assert big[Lift(v, b)] == m[b];
      assert R.SameKey(Lift(v, a), Lift(v, b));
    }
  }

  /**
   * A high store whose pairs went from pm0 to pm1, only those of v
   * changing, by taking the pairs ps: its entries took the entries es of
   * ps.
   */
  lemma HighTook(pm0: map<int, multiset<(int, NodeWeight)>>, pm1: map<int, multiset<(int, NodeWeight)>>, v: int,
                 ps: multiset<(int, NodeWeight)>, es: multiset<Entry>)
    requires forall u {:trigger H.PairsIn(pm1, u)} :: u != v ==> H.PairsIn(pm1, u) == H.PairsIn(pm0, u)
    requires Took(H.PairsIn(pm0, v), ps, H.PairsIn(pm1, v)) && LiftsTo(v, ps, es)
    ensures Took(Flatten(pm0), es, Flatten(pm1))
  {
    TookIs(H.PairsIn(pm0, v), ps, H.PairsIn(pm1, v));
    var h0, h1 := Flatten(pm0), Flatten(pm1);
    var p0, p1 := H.PairsIn(pm0, v), H.PairsIn(pm1, v);
    forall y: Entry
      ensures h1[y] <= (h0 + es)[y]
    {
      FlattenCount(pm0, y);
      FlattenCount(pm1, y);
      var q := (y.0.second, y.1);
      assert Mult(es, y) == if y.0.first == v then Mult(ps, q) else 0;
      if y.0.first == v {
        assert p1[q] <= (p0 + ps)[q];
      } else {
        assert H.PairsIn(pm1, y.0.first) == H.PairsIn(pm0, y.0.first);
      }
    }
    if R.KeysDistinct(h0 + es) {
      FlatDistinct(pm0, v, ps, es);
      assert p1 == p0 + ps;
      forall y: Entry
        ensures h1[y] == (h0 + es)[y]
      {
        FlattenCount(pm0, y);
        FlattenCount(pm1, y);
        var q := (y.0.second, y.1);
        assert Mult(es, y) == if y.0.first == v then Mult(ps, q) else 0;
        if y.0.first == v {
          assert p1[q] == p0[q] + ps[q];
        } else {
          assert H.PairsIn(pm1, y.0.first) == H.PairsIn(pm0, y.0.first);
        }
      }
      R.MultisetExt(h1, h0 + es);
    }
  }

  /**
   * Tombstoning live slots at the listed offsets removes exactly their
   * entries from the live pairs, and no slot becomes empty.
   */
  lemma {:induction false} TombAllLive(s: Slots, o: nat, cs: seq<nat>)
    requires o < |s| && R.WellFormed(s) && Increasing(cs)
    requires forall j :: 0 <= j < |cs| ==> cs[j] < |s| && R.IsLive(s[R.At(o, cs[j], |s|)])
    ensures R.LiveOf(TombAll(s, o, cs)) + ItemsOf(SlotsAlong(s, o, cs)) == R.LiveOf(s)
    ensures R.NonEmptyCount(TombAll(s, o, cs)) == R.NonEmptyCount(s)
    decreases |cs|
  {
    if |cs| > 0 {
      var init := cs[..|cs| - 1];
      var l := cs[|cs| - 1];
      var p := R.At(o, l, |s|);
      TombAllLive(s, o, init);
      var t := TombAll(s, o, init);
      TombAllLast(s, o, cs);
      R.TombstoneLive(t, p);
      ItemsAlongLast(s, o, cs);
      Regroup(R.LiveOf(R.Tombstone(t, p)), R.LiveOf(t), ItemsOf(SlotsAlong(s, o, init)), ItemsOf(SlotsAlong(s, o, cs)), (s[p].key, s[p].val));
    }
  }

  /** The last listed offset is tombstoned last, while its slot still holds what it held in s. */
  lemma TombAllLast(s: Slots, o: nat, cs: seq<nat>)
    requires o < |s| && R.WellFormed(s) && Increasing(cs) && |cs| > 0
    requires forall j :: 0 <= j < |cs| ==> cs[j] < |s|
    ensures var p := R.At(o, cs[|cs| - 1], |s|);
            var t := TombAll(s, o, cs[..|cs| - 1]);
            TombAll(s, o, cs) == R.Tombstone(t, p) && t[p] == s[p]
  {
    var init := cs[..|cs| - 1];
    TombAllAt(s, o, init, cs[|cs| - 1]);
    assert cs[|cs| - 1] !in init;
  }

  /** The entries along the listed offsets are those along all but the last, plus the last one's. */
  lemma ItemsAlongLast(s: Slots, o: nat, cs: seq<nat>)
    requires o < |s| && |cs| > 0 && forall j :: 0 <= j < |cs| ==> cs[j] < |s|
    ensures var x := s[R.At(o, cs[|cs| - 1], |s|)];
            ItemsOf(SlotsAlong(s, o, cs)) == ItemsOf(SlotsAlong(s, o, cs[..|cs| - 1])) + multiset{(x.key, x.val)}
  {
    assert SlotsAlong(s, o, cs)[..|cs| - 1] == SlotsAlong(s, o, cs[..|cs| - 1]);
  }

  /** Taking es out of one part of a sum takes it out of the sum. */
  lemma AddBeside(f: multiset<Entry>, a: multiset<Entry>, b: multiset<Entry>, es: multiset<Entry>)
    requires a + es == b
    ensures f + a + es == f + b
  {
  }

  /** Moving one entry x from the live pairs over to the handed-over ones keeps their sum. */
  lemma Regroup(a: multiset<Entry>, b: multiset<Entry>, c: multiset<Entry>, d: multiset<Entry>, x: Entry)
    requires a + multiset{x} == b && d == c + multiset{x}
    ensures a + d == b + c
  {
  }

  /**
   * The slots the walk of n hands over are live entries of n that the low
   * store held; tombstoning them takes exactly their entries out of the
   * live ones and empties no slot.
   */
  lemma MovedSlotsOk(weighted: bool, n: int, s0: Slots, xs: Slots)
    requires |s0| > 0 && R.WellFormed(s0) && forall x | x in R.LiveOf(s0) :: EntryOk(weighted, x)
    requires var o := L.Origin(n, |s0|); xs == SlotsAlong(s0, o, L.Counted(s0, n, o, 0))
    ensures forall j :: 0 <= j < |xs| ==> xs[j].key.first == n && EntryOk(weighted, (xs[j].key, xs[j].val))
    ensures var o := L.Origin(n, |s0|);
            var t := TombAll(s0, o, L.Counted(s0, n, o, 0));
            R.LiveOf(t) + ItemsOf(xs) == R.LiveOf(s0) && R.LiveOf(t) <= R.LiveOf(s0) && R.NonEmptyCount(t) == R.NonEmptyCount(s0)
  {
    var o := L.Origin(n, |s0|);
    var all := L.Counted(s0, n, o, 0);
    forall j | 0 <= j < |all|
      ensures R.IsLive(s0[R.At(o, all[j], |s0|)]) && s0[R.At(o, all[j], |s0|)].key.first == n
    {
      L.CountedAreLiveEntries(s0, n, o, j);
    }
    TombAllLive(s0, o, all);
    forall j | 0 <= j < |xs|
      ensures xs[j].key.first == n && EntryOk(weighted, (xs[j].key, xs[j].val))
    {
      R.LiveOfHas(s0, R.At(o, all[j], |s0|));
    }
  }

  /** A moved slot whose key has source n and whose record `insert` made lifts back to its own entry. */
  lemma MovedPairLifts(weighted: bool, n: int, x: R.Slot<EdgeId, NodeWeight>)
    requires x.key.first == n && EntryOk(weighted, (x.key, x.val))
    ensures Lift(n, MovedPair(weighted, x)) == (x.key, x.val)
  {
  }

  /** The pairs the high store is handed for the moved slots xs. */
  ghost function MovedPairs(weighted: bool, xs: Slots): multiset<(int, NodeWeight)>
  {
    if |xs| == 0 then multiset{} else MovedPairs(weighted, xs[..|xs| - 1]) + multiset{MovedPair(weighted, xs[|xs| - 1])}
  }

  lemma MovedPairsPrefix(weighted: bool, xs: Slots, i: nat)
    requires i < |xs|
    ensures MovedPairs(weighted, xs[..i + 1]) == MovedPairs(weighted, xs[..i]) + multiset{MovedPair(weighted, xs[i])}
  {
    assert xs[..i + 1][..i] == xs[..i];
  }

  /** The pairs handed over for slots of source n, made by `insert`, lift back to the slots' entries. */
  lemma {:induction false} MovedLifts(weighted: bool, n: int, xs: Slots)
    requires forall j :: 0 <= j < |xs| ==> xs[j].key.first == n && EntryOk(weighted, (xs[j].key, xs[j].val))
    ensures LiftsTo(n, MovedPairs(weighted, xs), ItemsOf(xs))
    decreases |xs|
  {
    if |xs| == 0 {
      assert forall y: Entry {:trigger Mult(multiset{}, y)} :: Mult(multiset{}, y) == 0;
    } else {
      var x := xs[|xs| - 1];
      MovedLifts(weighted, n, xs[..|xs| - 1]);
      MovedPairLifts(weighted, n, x);
      LiftsOne(n, MovedPair(weighted, x));
      LiftsAdd(n, MovedPairs(weighted, xs[..|xs| - 1]), ItemsOf(xs[..|xs| - 1]),
               multiset{MovedPair(weighted, x)}, multiset{(x.key, x.val)});
    }
  }

  /** Which store `partition::insert` sends an edge to. */
  datatype Route = ToLow | ToHigh | MigrateThenHigh

  /** No chunk of the high store has had a deletion. */
  ghost predicate NoDeletion(hd: H.Store)
    reads hd, hd.Repr
    requires hd.Valid()
  {
    forall u {:trigger H.Counting(hd.chunks[u])} :: u in hd.chunks ==> H.Counting(hd.chunks[u])
  }

  /**
   * The decision of `partition::insert`, from the edge's `sourceExists`
   * flag, the source's low degree and its high degree.
   */
  function RouteOf(sourceExists: bool, lowDeg: nat, highDeg: nat): (r: Route)
    ensures !sourceExists ==> r == ToLow
    ensures sourceExists && 0 < lowDeg < LdThreshold ==> r == ToLow
    ensures sourceExists && lowDeg == LdThreshold ==> r == MigrateThenHigh
    ensures sourceExists && lowDeg == 0 ==> r == (if highDeg > 0 then ToHigh else ToLow)
    ensures r == MigrateThenHigh <==> sourceExists && lowDeg == LdThreshold
  {
    if !sourceExists then ToLow
    else if 0 < lowDeg < LdThreshold then ToLow
    else if lowDeg == LdThreshold then MigrateThenHigh
    else if highDeg > 0 then ToHigh
    else ToLow
  }

  // ---------------------------------------------------------------------
  // A partition: one low-degree and one high-degree store
  // ---------------------------------------------------------------------

  class Partition {
    const ld: R.Table<EdgeId, NodeWeight>
    const hd: H.Store
    /** Whether the neighbour type is `NodeWeight` (weighted) or `Node`. */
    const weighted: bool

    /** The objects the partition is made of: itself and its two stores. */
    ghost function Repr(): set<object>
      reads ld, hd
    {
      {this} + ld.Repr + hd.Repr
    }

    ghost predicate Valid()
      reads ld, hd, ld.Repr, hd.Repr
    {
      && this !in ld.Repr && this !in hd.Repr && ld.Repr !! hd.Repr
      && L.IsStore(ld) && LowOk() && HighOk()
    }

    /**
     * Nothing is ever deleted from the low store, so its `size` is at least
     * its count of non-empty slots; every live entry is one `insert` made.
     */
    ghost predicate LowOk()
      reads ld, ld.arr
    {
      && R.NonEmptyCount(ld.arr[..]) <= ld.size
      && forall x :: x in R.LiveOf(ld.arr[..]) ==> EntryOk(weighted, x)
    }

    /** The high store is in order and no chunk has had a deletion. */
    ghost predicate HighOk()
      reads hd, hd.Repr
    {
      hd.Valid() && NoDeletion(hd)
    }

    /**
     * What the partition holds: the live entries of the low store and, as
     * entries, the pairs of the high store's chunks (`ContentIs`).
     */
    ghost function Content(): multiset<Entry>
      reads ld, ld.arr, hd, hd.Repr
      requires hd.Valid()
    {
      ContentFrom(1)
    }

    /**
     * `Content` counted down from `k`: the count keeps the definition
     * folded where a proof reasons about the content as a whole, and
     * `ContentIs` unfolds it where a proof needs the two stores.
     */
    ghost function ContentFrom(k: nat): multiset<Entry>
      reads ld, ld.arr, hd, hd.Repr
      requires hd.Valid()
    {
      if k == 0 then Flatten(hd.PairsMap()) + LowLive() else ContentFrom(k - 1)
    }

    /** The partition's content is the high store's entries and the low store's live ones. */
    lemma ContentIs()
      requires hd.Valid()
      ensures Content() == Flatten(hd.PairsMap()) + LowLive()
    {
      assert ContentFrom(0) == Flatten(hd.PairsMap()) + LowLive();
    }

    /** The live entries of the low store. */
    ghost function LowLive(): multiset<Entry>
      reads ld, ld.arr
    {
      R.LiveOf(ld.arr[..])
    }

    /** `ld->get_degree(v)`: the live entries of v along its run in the low store. */
    function LowDegree(v: int): nat
      reads ld, ld.arr
      requires ld.arr.Length > 0 && R.WellFormed(ld.arr[..])
    {
      |L.Counted(ld.arr[..], v, L.Origin(v, ld.arr.Length), 0)|
    }

    /** `partition(parent)`: a low store of 2^20 slots and a high store of 2^5-slot chunks, both with load factor 0.9. */
    constructor (w: bool)
      ensures Valid() && fresh(Repr()) && weighted == w && Content() == multiset{}
      ensures ld.arr.Length == LdCap && ld.size == 0 && ld.lfNum == 9 && ld.lfDen == 10
      ensures forall i :: 0 <= i < ld.arr.Length ==> R.IsEmpty(ld.arr[i])
      ensures hd.chunks == map[] && hd.ecCap == H.DefaultChunkCap && hd.lfNum == 9 && hd.lfDen == 10
    {
      LdCapIsPow2();
      weighted := w;
      ld := new R.Table<EdgeId, NodeWeight>(LdCap, 9, 10, DefaultEdgeId, DefaultNodeWeight,
                                            DefaultEdgeId, DefaultNodeWeight, (k: EdgeId) => k.first);
      hd := new H.Store.Default();
      new;
      R.AllEmpty(ld.arr[..]);
      NothingHeld();
    }

    /** With no chunk and no live slot in the low store, the partition holds nothing. */
    lemma NothingHeld()
      requires hd.Valid() && hd.chunks == map[] && R.LiveOf(ld.arr[..]) == multiset{}
      ensures Content() == multiset{}
    {
      ContentIs();
      assert hd.PairsMap().Keys == {};
    }

    /** A partition none of whose objects changed is as valid as it was and holds what it held. */
    twostate lemma Untouched()
      requires old(Valid()) && unchanged(old(Repr()))
      ensures Valid() && Repr() == old(Repr()) && Content() == old(Content())
    {
    }

    /** `ld->arr[p].mark_deleted()`. */
    method MarkSlotDeleted(p: nat)
      requires L.IsStore(ld) && p < ld.arr.Length
      modifies ld.arr
      ensures L.IsStore(ld)
      ensures ld.arr[..] == old(ld.arr[..][p := ld.arr[p].(hash := R.MarkDeleted(ld.arr[p].hash))])
    {
      R.MarkDeletedFacts(ld.arr[p].hash);
      ghost var t := R.Tombstone(ld.arr[..], p);
      ld.arr[p] := ld.arr[p].(hash := R.MarkDeleted(ld.arr[p].hash));
      assert ld.arr[..] == t;
    }

    /**
     * The low-store half of `transfer_low_to_high(n)`: walk the iterator
     * of n, tombstone every slot it yields, and hand back those slots as
     * they were, in the order the iterator yielded them.
     */
    method TombstoneRun(n: int) returns (xs: Slots)
      requires L.IsStore(ld)
      modifies ld.arr
      ensures L.IsStore(ld)
      ensures var s0 := old(ld.arr[..]);
              var o := L.Origin(n, |s0|);
              var all := L.Counted(s0, n, o, 0);
              ld.arr[..] == TombAll(s0, o, all) && xs == SlotsAlong(s0, o, all)
    {
      var cap := ld.arr.Length;
      ghost var s0 := ld.arr[..];
      var o := L.Origin(n, cap);
      ghost var all := L.Counted(s0, n, o, 0);
      var it := L.Begin(ld, n);
      ghost var e := L.BeginOffset(s0, n, o);
      ghost var visited: seq<nat> := [];
      xs := [];
      L.IterationMatchesDegree(s0, n);
      while it.cursor.Some?
        invariant L.IsStore(ld)
        invariant TransferAt(s0, n, o, e, visited, all, xs, ld.arr[..], it)
        decreases cap - e
      {
        TransferStep(s0, n, o, e, visited, all, xs, ld.arr[..], it);
        var p := it.cursor.value;
        var x := ld.arr[p];
        MarkSlotDeleted(p);
        it := L.Increment(ld, it);
        visited := visited + [e];
        xs := xs + [x];
        e := L.ScanStop(s0, n, o, e);
      }
      assert TransferFrom(s0, n, o, e, visited, all, xs, ld.arr[..], it, 0);
      assert visited == all;
    }

    /** A step of the low store that took at most the entries added keeps `LowOk`. */
    twostate lemma LowTook(added: multiset<Entry>)
      requires old(LowOk()) && forall x | x in added :: EntryOk(weighted, x)
      requires R.NonEmptyCount(ld.arr[..]) <= ld.size
      requires R.LiveOf(ld.arr[..]) <= old(R.LiveOf(ld.arr[..])) + added
      ensures LowOk()
    {
      forall y | y in R.LiveOf(ld.arr[..])
        ensures EntryOk(weighted, y)
      {
        assert y in old(R.LiveOf(ld.arr[..])) + added;
      }
    }

    /** A step that left the low store alone keeps `LowOk` and the low store's shape. */
    twostate lemma LowKept()
      requires old(LowOk()) && old(L.IsStore(ld)) && unchanged(ld) && unchanged(ld.arr)
      ensures LowOk() && L.IsStore(ld)
    {
    }

    /**
     * A step of the high store that changed at most the chunk of v, creating
     * it if need be, and left no deletion in it, keeps every chunk free of
     * deletions.
     */
    twostate lemma CountingKept(v: int)
      requires old(hd.Valid()) && old(NoDeletion(hd)) && hd.Valid()
      requires hd.chunks.Keys <= old(hd.chunks.Keys) + {v} && hd.KeptBut(v)
      requires v in hd.chunks ==> H.Counting(hd.chunks[v])
      ensures NoDeletion(hd)
    {
      forall u | u in hd.chunks
        ensures H.Counting(hd.chunks[u])
      {
        if u != v {
          assert old(H.Counting(hd.chunks[u]));
        }
      }
    }

    /**
     * One step of the high-store half of `transfer_low_to_high(n)`:
     * `hd->insert_elem` of moved slot x, keyed (n, neighbour).  n's chunk
     * takes the slot's pair; no other chunk changes; no chunk has a
     * deletion.
     */
    method MoveSlot(n: int, x: R.Slot<EdgeId, NodeWeight>)
      requires hd.Valid() && NoDeletion(hd)
      modifies hd.Repr
      ensures hd.Valid() && fresh(hd.Repr - old(hd.Repr)) && NoDeletion(hd)
      ensures hd.KeptBut(n)
      ensures hd.chunks.Keys == old(hd.chunks.Keys) + {n}
      ensures forall u {:trigger hd.Pairs(u)} :: u != n ==> hd.Pairs(u) == old(hd.Pairs(u))
      ensures Took(old(hd.Pairs(n)), multiset{MovedPair(weighted, x)}, hd.Pairs(n))
    {
      var r := hd.InsertElem(EdgeId(n, x.val.node), x.val.weight, weighted);
      CountingKept(n);
    }

    /**
     * The high-store half of `transfer_low_to_high(n)`: `hd->insert_elem`
     * of each moved slot, keyed (n, neighbour), in order.  n's chunk takes
     * their pairs; no other vertex's pairs change; no chunk has a deletion.
     */
    method InsertAll(n: int, xs: Slots)
      requires hd.Valid() && NoDeletion(hd)
      modifies hd.Repr
      ensures hd.Valid() && fresh(hd.Repr - old(hd.Repr)) && NoDeletion(hd)
      ensures hd.chunks.Keys == old(hd.chunks.Keys) + (if |xs| > 0 then {n} else {}) && hd.KeptBut(n)
      ensures forall u {:trigger hd.Pairs(u)} :: u != n ==> hd.Pairs(u) == old(hd.Pairs(u))
      ensures Took(old(hd.Pairs(n)), MovedPairs(weighted, xs), hd.Pairs(n))
    {
      var i := 0;
      while i < |xs|
        invariant 0 <= i <= |xs|
        invariant hd.Valid() && fresh(hd.Repr - old(hd.Repr)) && NoDeletion(hd)
        invariant hd.chunks.Keys == old(hd.chunks.Keys) + (if i > 0 then {n} else {}) && hd.KeptBut(n)
        invariant Took(old(hd.Pairs(n)), MovedPairs(weighted, xs[..i]), hd.Pairs(n))
      {
        ghost var p0 := hd.Pairs(n);
        MoveSlot(n, xs[i]);
        MovedPairsPrefix(weighted, xs, i);
        TookTrans(old(hd.Pairs(n)), MovedPairs(weighted, xs[..i]), p0, multiset{MovedPair(weighted, xs[i])}, hd.Pairs(n));
        i := i + 1;
      }
      assert xs[..i] == xs;
      hd.PairsStep(n);
    }

    /**
     * The low-store half of `transfer_low_to_high(n)` seen from the
     * partition: n's entries become tombstones and are handed back, all
     * of them keyed by n; the partition stays valid and holds what it held
     * but those entries.
     */
    method TombstoneLow(n: int) returns (xs: Slots)
      requires Valid()
      modifies ld.arr
      ensures Valid() && Repr() == old(Repr()) && hd.KeptBut(n)
      ensures var s0 := old(ld.arr[..]);
              var o := L.Origin(n, |s0|);
              ld.arr[..] == TombAll(s0, o, L.Counted(s0, n, o, 0))
      ensures LowDegree(n) == 0 && |xs| == old(LowDegree(n))
      ensures forall j :: 0 <= j < |xs| ==> xs[j].key.first == n && EntryOk(weighted, (xs[j].key, xs[j].val))
      ensures Content() + ItemsOf(xs) == old(Content())
    {
      ghost var s0 := ld.arr[..];
      xs := TombstoneRun(n);
      MovedSlotsOk(weighted, n, s0, xs);
      TombstonedRunCountsNothing(s0, n);
      assert ld.arr !in hd.Repr;
      LowStepValid(multiset{});
      LowHandedOver(ItemsOf(xs));
    }

    /**
     * The high-store half of `transfer_low_to_high(n)` seen from the
     * partition: n's chunk takes the pairs of the handed-back slots, all
     * keyed by n; no other vertex's pairs change; the partition takes
     * their entries.
     */
    method MoveHigh(n: int, xs: Slots)
      requires Valid() && forall j :: 0 <= j < |xs| ==> xs[j].key.first == n && EntryOk(weighted, (xs[j].key, xs[j].val))
      modifies hd.Repr
      ensures Valid() && fresh(Repr() - old(Repr()))
      ensures hd.chunks.Keys == old(hd.chunks.Keys) + (if |xs| > 0 then {n} else {}) && hd.KeptBut(n)
      ensures Took(old(Content()), ItemsOf(xs), Content())
    {
      assert ld !in hd.Repr && ld.arr !in hd.Repr;
      InsertAll(n, xs);
      LowKept();
      HighStepValid();
      MovedLifts(weighted, n, xs);
      HighStepTook(n, MovedPairs(weighted, xs), ItemsOf(xs));
    }

    /**
     * `transfer_low_to_high(n)`: every entry of n in the low store becomes
     * a tombstone and moves, keyed (n, neighbour), to n's high-store chunk.
     * The low store keeps its `size`; n's low degree drops to 0; no other
     * vertex's pairs change; the partition holds what it held.
     */
    method TransferLowToHigh(n: int)
      requires Valid()
      modifies Repr()
      ensures Valid() && fresh(Repr() - old(Repr()))
      ensures unchanged(ld) && ld.arr == old(ld.arr) && ld.size == old(ld.size)
      ensures var s0 := old(ld.arr[..]);
              var o := L.Origin(n, |s0|);
              ld.arr[..] == TombAll(s0, o, L.Counted(s0, n, o, 0))
      ensures LowDegree(n) == 0
      ensures hd.chunks.Keys == old(hd.chunks.Keys) + (if old(LowDegree(n)) > 0 then {n} else {}) && hd.KeptBut(n)
      ensures Took(old(Content()), multiset{}, Content())
    {
      var xs := TombstoneLow(n);
      ghost var c1 := Content();
      MoveHigh(n, xs);
      TookHandedOver(old(Content()), c1, ItemsOf(xs), Content());
    }

    /**
     * After the low store alone took at most entry x, keeping its count of
     * non-empty slots within `size`, the partition is valid again.
     */
    twostate lemma LowStepValid(added: multiset<Entry>)
      requires old(Valid()) && forall x | x in added :: EntryOk(weighted, x)
      requires L.IsStore(ld) && ld.Repr == {ld, ld.arr} && (ld.arr == old(ld.arr) || fresh(ld.arr))
      requires unchanged(hd) && unchanged(hd.Repr)
      requires R.NonEmptyCount(ld.arr[..]) <= ld.size
      requires R.LiveOf(ld.arr[..]) <= old(R.LiveOf(ld.arr[..])) + added
      ensures Valid() && fresh(Repr() - old(Repr()))
    {
      LowTook(added);
    }

    /** When the low store alone took entries, the partition took them. */
    twostate lemma LowStepTook(added: multiset<Entry>)
      requires old(hd.Valid()) && unchanged(hd) && unchanged(hd.Repr)
      requires Took(old(R.LiveOf(ld.arr[..])), added, R.LiveOf(ld.arr[..]))
      ensures Took(old(Content()), added, Content())
    {
      assert old(ContentFrom(0)) == old(Content()) && ContentFrom(0) == Content();
      assert hd.PairsMap() == old(hd.PairsMap());
      TookBeside(old(R.LiveOf(ld.arr[..])), added, R.LiveOf(ld.arr[..]), Flatten(hd.PairsMap()));
    }

    /** When the low store alone handed the entries es over, the partition handed them over. */
    twostate lemma LowHandedOver(new es: multiset<Entry>)
      requires old(hd.Valid()) && unchanged(hd) && unchanged(hd.Repr)
      requires R.LiveOf(ld.arr[..]) + es == old(R.LiveOf(ld.arr[..]))
      ensures Content() + es == old(Content())
    {
      assert old(ContentFrom(0)) == old(Content()) && ContentFrom(0) == Content();
      assert hd.PairsMap() == old(hd.PairsMap());
      AddBeside(Flatten(hd.PairsMap()), LowLive(), old(LowLive()), es);
    }

    /** `ld->insert_elem(e)`: the low store takes the edge; the high store is untouched. */
    method InsertLow(e: Edge) returns (r: R.InsertOutcome<EdgeId, NodeWeight>)
      requires Valid()
      modifies ld, ld.arr
      ensures Valid() && fresh(Repr() - old(Repr())) && !r.Unfinished?
      ensures hd.chunks == old(hd.chunks) && hd.Repr == old(hd.Repr) && unchanged(hd.Repr)
      ensures Took(old(Content()), multiset{EntryOf(weighted, e)}, Content())
    {
      assert ld !in hd.Repr && ld.arr !in hd.Repr;
      r := L.InsertEdge(ld, weighted, e);
      LowStepValid(multiset{EntryOf(weighted, e)});
      LowStepTook(multiset{EntryOf(weighted, e)});
    }

    /**
     * After the low store, its objects the same, is in order again and
     * the high store, its chunks free of deletions, at most gained fresh
     * objects, which `Repr` took: the partition is valid again.
     */
    twostate lemma HighStepValid()
      requires old(Valid())
      requires ld.Repr == old(ld.Repr) && L.IsStore(ld) && LowOk()
      requires hd.Valid() && fresh(hd.Repr - old(hd.Repr)) && NoDeletion(hd)
      ensures Valid() && fresh(Repr() - old(Repr()))
    {
    }

    /**
     * When the high store took the pairs ps of v, the other vertices
     * keeping their pairs, and the low store was left alone: the partition
     * took the entries es of ps.
     */
    twostate lemma HighStepTook(new v: int, new ps: multiset<(int, NodeWeight)>, new es: multiset<Entry>)
      requires old(hd.Valid()) && hd.Valid() && unchanged(ld) && unchanged(ld.arr)
      requires forall u {:trigger hd.Pairs(u)} :: u != v ==> hd.Pairs(u) == old(hd.Pairs(u))
      requires Took(old(hd.Pairs(v)), ps, hd.Pairs(v)) && LiftsTo(v, ps, es)
      ensures Took(old(Content()), es, Content())
    {
      ghost var pm0, pm1 := old(hd.PairsMap()), hd.PairsMap();
      assert old(ContentFrom(0)) == old(Content()) && ContentFrom(0) == Content();
      assert ld.arr[..] == old(ld.arr[..]);
      HighTook(pm0, pm1, v, ps, es);
      TookAfter(Flatten(pm0), es, Flatten(pm1), R.LiveOf(ld.arr[..]));
    }

    /**
     * `hd->insert_elem(e)`: the high store takes the edge into the chunk of
     * its source, a new chunk holding just the edge when there was none;
     * the low store and the other chunks are untouched.
     */
    method InsertHigh(e: Edge) returns (r: R.InsertOutcome<int, NodeWeight>)
      requires Valid()
      modifies Repr()
      ensures Valid() && fresh(Repr() - old(Repr())) && !r.Unfinished?
      ensures unchanged(ld) && ld.arr == old(ld.arr) && unchanged(ld.arr) && ld.size == old(ld.size)
      ensures hd.chunks.Keys == old(hd.chunks.Keys) + {e.source}
      ensures hd.Valid() && hd.KeptBut(e.source)
      ensures forall u {:trigger hd.Pairs(u)} :: u != e.source ==> hd.Pairs(u) == old(hd.Pairs(u))
      ensures e.source !in old(hd.chunks) ==> hd.Pairs(e.source) == multiset{HighPair(weighted, e)} && hd.Degree(e.source) == 1
      ensures Took(old(hd.Pairs(e.source)), multiset{HighPair(weighted, e)}, hd.Pairs(e.source))
      ensures Took(old(Content()), multiset{EntryOf(weighted, e)}, Content())
    {
      ghost var v := e.source;
      ghost var p := HighPair(weighted, e);
      assert Lift(v, p) == EntryOf(weighted, e);
      r := hd.InsertEdge(e, weighted);
      CountingKept(v);
      LowKept();
      HighStepValid();
      LiftsOne(v, p);
      HighStepTook(v, multiset{p}, multiset{EntryOf(weighted, e)});
    }

    /** The threshold case of `partition::insert(e)`: move the source's low entries to the high store, then insert there. */
    method MigrateThenInsert(e: Edge) returns (r: R.InsertOutcome<int, NodeWeight>)
      requires Valid()
      modifies Repr()
      ensures Valid() && fresh(Repr() - old(Repr())) && !r.Unfinished?
      ensures e.source in hd.chunks && LowDegree(e.source) == 0
      ensures unchanged(ld) && ld.arr == old(ld.arr) && ld.size == old(ld.size)
      ensures Took(old(Content()), multiset{EntryOf(weighted, e)}, Content())
    {
      TransferLowToHigh(e.source);
      ghost var c1 := Content();
      ghost var r1 := Repr();
      r := InsertHigh(e);
      TookTrans(old(Content()), multiset{}, c1, multiset{EntryOf(weighted, e)}, Content());
      assert multiset{} + multiset{EntryOf(weighted, e)} == multiset{EntryOf(weighted, e)};
      assert Repr() - old(Repr()) <= (Repr() - r1) + (r1 - old(Repr()));
    }

    /**
     * `partition::insert(e)`: an edge of a new source goes to the low
     * store; so does one whose source has low degree 1.  At low degree 2
     * (`ld_threshold`) the source's entries first move to the high store,
     * which then takes the edge; with low degree 0 the edge goes to the
     * high store when the source already has high-store neighbours, and to
     * the low store otherwise.  The route taken is returned; whichever it
     * is, the partition takes the edge's entry.
     */
    method Insert(e: Edge) returns (route: Route)
      requires Valid()
      modifies Repr()
      ensures Valid() && fresh(Repr() - old(Repr()))
      ensures route == RouteOf(e.sourceExists, old(LowDegree(e.source)), old(hd.Degree(e.source)))
      ensures Took(old(Content()), multiset{EntryOf(weighted, e)}, Content())
      ensures route == ToLow ==> hd.chunks == old(hd.chunks) && unchanged(old(hd.Repr))
      ensures route != ToLow ==> e.source in hd.chunks && ld.arr == old(ld.arr) && ld.size == old(ld.size)
      ensures route == ToHigh ==> hd.Valid() && hd.KeptBut(e.source)
      ensures route == ToHigh ==> ld.arr[..] == old(ld.arr[..])
      ensures route == ToHigh ==> Took(old(hd.Pairs(e.source)), multiset{HighPair(weighted, e)}, hd.Pairs(e.source))
      ensures route == MigrateThenHigh ==> LowDegree(e.source) == 0
    {
      var low := L.GetDegree(ld, e.source);
      route := RouteOf(e.sourceExists, low, hd.Degree(e.source));
      match route {
        case ToLow =>
          var r := InsertLow(e);
        case ToHigh =>
          var r := InsertHigh(e);
        case MigrateThenHigh =>
          var r := MigrateThenInsert(e);
      }
    }
  }

  /**
   * A partition's thread draining its queue: `insert` of each queued edge
   * in order.  The partition takes the entries of the queued edges.
   */
  method ApplyQueue(p: Partition, q: seq<Edge>)
    requires p.Valid()
    modifies p.Repr()
    ensures p.Valid() && fresh(p.Repr() - old(p.Repr()))
    ensures Took(old(p.Content()), Entries(p.weighted, q), p.Content())
  {
    var i := 0;
    while i < |q|
      invariant 0 <= i <= |q|
      invariant p.Valid() && fresh(p.Repr() - old(p.Repr()))
      invariant Took(old(p.Content()), Entries(p.weighted, q[..i]), p.Content())
    {
      ghost var c := p.Content();
      ghost var r0 := p.Repr();
      var _ := p.Insert(q[i]);
      TookNext(p.weighted, q, i, old(p.Content()), c, p.Content());
      assert p.Repr() - old(p.Repr()) <= (p.Repr() - r0) + (r0 - old(p.Repr()));
      i := i + 1;
    }
    assert q[..i] == q;
  }

  /** `num_out_partitions` new, valid, pairwise separate partitions (or `num_in_partitions`). */
  method NewPartitions(w: bool, count: nat) returns (ps: seq<Partition>, ghost rs: set<object>)
    ensures |ps| == count && fresh(rs)
    ensures forall i :: 0 <= i < |ps| ==> ps[i].Valid() && ps[i].weighted == w && ps[i].Repr() <= rs && ps[i].Content() == multiset{}
    ensures forall i, j :: 0 <= i < j < |ps| ==> ps[i].Repr() !! ps[j].Repr()
  {
    ps := [];
    rs := {};
    while |ps| < count
      invariant |ps| <= count && fresh(rs)
      invariant forall i :: 0 <= i < |ps| ==> ps[i].Valid() && ps[i].weighted == w && ps[i].Repr() <= rs && ps[i].Content() == multiset{}
      invariant forall i, j :: 0 <= i < j < |ps| ==> ps[i].Repr() !! ps[j].Repr()
    {
      label Before:
      var p := new Partition(w);
      forall i | 0 <= i < |ps|
        ensures ps[i].Valid() && ps[i].Repr() == old@Before(ps[i].Repr()) && ps[i].Content() == old@Before(ps[i].Content())
      {
        ps[i].Untouched@Before();
      }
      ps := ps + [p];
      rs := rs + p.Repr();
    }
  }

  // ---------------------------------------------------------------------
  // The container
  // ---------------------------------------------------------------------

  class Darhh {
    const weighted: bool
    const directed: bool
    const initNumNodes: nat
    const numOut: nat
    const numIn: nat
    const outs: seq<Partition>
    const ins: seq<Partition>
    var numNodes: int
    var numEdges: int
    var property: seq<real>
    var affected: seq<bool>
    ghost var Repr: set<object>

    /** All partitions, the out-partitions first. */
    function Parts(): seq<Partition>
    {
      outs + ins
    }

    ghost predicate PartOk(p: Partition)
      reads this`Repr, Repr - {this}
    {
      p in Repr && p.ld in Repr && p.hd in Repr && p.Repr() <= Repr && this !in p.Repr() && p.Valid() && p.weighted == weighted
    }

    ghost predicate Valid()
      reads this`Repr, Repr - {this}
    {
      && this in Repr
      && |outs| == numOut && |ins| == numIn
      && numIn == (if directed then numOut else 0)
      && (forall i :: 0 <= i < |Parts()| ==> PartOk(Parts()[i]))
      && (forall i, j :: 0 <= i < j < |Parts()| ==> Parts()[i].Repr() !! Parts()[j].Repr())
    }

    /**
     * `darhh(w, d, init_nn, nt)`: nt / 2 out- and nt / 2 in-partitions for
     * a directed graph, nt out-partitions otherwise; `property` starts at
     * -1 and `affected` at false for the `init_nn` initial vertices.
     */
    constructor (w: bool, d: bool, initNn: nat, nt: nat)
      ensures Valid() && fresh(Repr)
      ensures weighted == w && directed == d && initNumNodes == initNn
      ensures numOut == (if d then nt / 2 else nt) && numIn == (if d then nt / 2 else 0)
      ensures numNodes == 0 && numEdges == 0
      ensures |property| == initNn && forall v :: 0 <= v < initNn ==> property[v] == -1.0
      ensures |affected| == initNn && forall v :: 0 <= v < initNn ==> !affected[v]
      ensures forall k :: 0 <= k < |Parts()| ==> Parts()[k].Content() == multiset{}
    {
      weighted := w;
      directed := d;
      initNumNodes := initNn;
      var nOut, nIn := if d then nt / 2 else nt, if d then nt / 2 else 0;
      numOut, numIn := nOut, nIn;
      numNodes := 0;
      numEdges := 0;
      property := seq(initNn, _ => -1.0);
      affected := seq(initNn, _ => false);
      var ps, rs := NewPartitions(w, nOut + nIn);
      outs := ps[..nOut];
      ins := ps[nOut..];
      label Made:
      new;
      Repr := {this} + rs;
      assert Parts() == ps;
      forall i | 0 <= i < |ps|
        ensures PartOk(ps[i]) && ps[i].Content() == multiset{}
      {
        ps[i].Untouched@Made();
      }
    }

    /**
     * The main thread's part of `update(el)`: flag both endpoints of each
     * edge as affected, count the endpoints that did not exist yet, queue
     * the edge on the partition of its source and its reverse on the
     * partition of its destination (an in-partition for a directed graph),
     * and count two edges per batch edge.
     */
    method Enqueue(el: seq<Edge>) returns (outQ: seq<seq<Edge>>, inQ: seq<seq<Edge>>)
      requires Valid() && numOut > 0 && D.EndpointsBelow(el, |affected|)
      modifies this`affected, this`numNodes, this`numEdges
      ensures Valid()
      ensures |outQ| == numOut && forall k :: 0 <= k < numOut ==> outQ[k] == OutQueue(el, k, numOut, directed)
      ensures |inQ| == numIn && forall k :: 0 <= k < numIn ==> inQ[k] == InQueue(el, k, numOut, directed)
      ensures affected == D.MarkAffected(old(affected), el)
      ensures numNodes == old(numNodes) + D.NewNodes(el)
      ensures numEdges == old(numEdges) + 2 * |el|
    {
      outQ := seq(numOut, _ => []);
      inQ := seq(numIn, _ => []);
      var i := 0;
      while i < |el|
        invariant 0 <= i <= |el| && |affected| == |old(affected)|
        invariant |outQ| == numOut && forall k :: 0 <= k < numOut ==> outQ[k] == OutQueue(el[..i], k, numOut, directed)
        invariant |inQ| == numIn && forall k :: 0 <= k < numIn ==> inQ[k] == InQueue(el[..i], k, numOut, directed)
        invariant affected == D.MarkAffected(old(affected), el[..i])
        invariant numNodes == old(numNodes) + D.NewNodes(el[..i])
        invariant numEdges == old(numEdges) + 2 * i
      {
        var e := el[i];
        D.MarkAffectedStep(old(affected), el, i);
        D.NewNodesStep(el, i);
        affected := affected[e.source := true][e.destination := true];
        numNodes := numNodes + (if e.sourceExists then 0 else 1) + (if e.destExists then 0 else 1);
        ghost var outQ0, inQ0 := outQ, inQ;
        outQ, inQ := EnqueueEdge(outQ, inQ, e, numOut, directed);
        QueuesStep(el, i, outQ0, inQ0, outQ, inQ, numOut, directed);
        numEdges := numEdges + 2;
        i := i + 1;
      }
      assert el[..i] == el;
    }

    /** Partition k's thread drains queue q; the other partitions are untouched. */
    method ApplyAt(k: nat, q: seq<Edge>)
      requires Valid() && k < |Parts()|
      modifies Repr
      ensures Valid() && fresh(Repr - old(Repr))
      ensures affected == old(affected) && property == old(property)
      ensures numNodes == old(numNodes) && numEdges == old(numEdges)
      ensures Took(old(Parts()[k].Content()), Entries(weighted, q), Parts()[k].Content())
      ensures forall i :: 0 <= i < |Parts()| && i != k ==> Parts()[i].Content() == old(Parts()[i].Content())
    {
      var p := Parts()[k];
      assert PartOk(p);
      ApplyQueue(p, q);
      Repr := Repr + p.Repr();
      OnePartChanged(k);
    }

    /**
     * Partition k alone changed, inside its own footprint and into fresh
     * objects, and `Repr` took those in: the darhh is valid again and every
     * other partition holds what it held.
     */
    twostate lemma OnePartChanged(k: nat)
      requires old(Valid()) && k < |Parts()|
      requires Parts()[k].Valid() && fresh(Parts()[k].Repr() - old(Parts()[k].Repr()))
      requires Repr == old(Repr) + Parts()[k].Repr()
      requires unchanged(old(Repr) - old(Parts()[k].Repr()) - {this})
      ensures Valid()
      ensures forall i :: 0 <= i < |Parts()| && i != k ==> Parts()[i].Content() == old(Parts()[i].Content())
    {
      var p := Parts()[k];
      assert old(PartOk(p));
      forall i | 0 <= i < |Parts()| && i != k
        ensures PartOk(Parts()[i]) && Parts()[i].Repr() !! p.Repr() && Parts()[i].Content() == old(Parts()[i].Content())
      {
        var pi := Parts()[i];
        assert old(PartOk(pi)) && (if i < k then old(pi.Repr() !! p.Repr()) else old(p.Repr() !! pi.Repr()));
        assert unchanged(pi.Repr());
      }
    }

    /**
     * Every partition's thread drains its queue: partition k (the
     * out-partitions, then the in-partitions) applies exactly queue k.
     */
    method Drain(outQ: seq<seq<Edge>>, inQ: seq<seq<Edge>>)
      requires Valid() && |outQ| == numOut && |inQ| == numIn
      modifies Repr
      ensures Valid() && fresh(Repr - old(Repr))
      ensures affected == old(affected) && property == old(property)
      ensures numNodes == old(numNodes) && numEdges == old(numEdges)
      ensures forall k :: 0 <= k < |Parts()| ==>
                Took(old(Parts()[k].Content()), Entries(weighted, (outQ + inQ)[k]), Parts()[k].Content())
    {
      var qs := outQ + inQ;
      var k := 0;
      while k < |qs|
        invariant 0 <= k <= |qs| == |Parts()|
        invariant Valid() && fresh(Repr - old(Repr))
        invariant affected == old(affected) && property == old(property)
        invariant numNodes == old(numNodes) && numEdges == old(numEdges)
        invariant forall i :: 0 <= i < k ==> Took(old(Parts()[i].Content()), Entries(weighted, qs[i]), Parts()[i].Content())
        invariant forall i :: k <= i < |Parts()| ==> Parts()[i].Content() == old(Parts()[i].Content())
      {
        ApplyAt(k, qs[k]);
        k := k + 1;
      }
    }

    /**
     * `update(el)`: enqueue the batch, then let every partition apply its
     * queue.  The flags, counters and properties change as `Enqueue`
     * states; each partition applies exactly its queue.
     */
    method Update(el: seq<Edge>)
      requires Valid() && numOut > 0 && D.EndpointsBelow(el, |affected|)
      modifies Repr
      ensures Valid() && fresh(Repr - old(Repr))
      ensures affected == D.MarkAffected(old(affected), el) && property == old(property)
      ensures numNodes == old(numNodes) + D.NewNodes(el)
      ensures numEdges == old(numEdges) + 2 * |el|
      ensures forall k :: 0 <= k < |Parts()| ==>
                Took(old(Parts()[k].Content()), Entries(weighted, QueueOf(el, k)), Parts()[k].Content())
    {
      var outQ, inQ := Enqueue(el);
      Drain(outQ, inQ);
      forall k | 0 <= k < |Parts()|
        ensures (outQ + inQ)[k] == QueueOf(el, k)
      {
      }
    }

    /** The queue of partition k after `update(el)`: an out-queue, or for k past them an in-queue. */
    function QueueOf(el: seq<Edge>, k: nat): seq<Edge>
      requires numOut > 0
    {
      if k < numOut then OutQueue(el, k, numOut, directed) else InQueue(el, k - numOut, numOut, directed)
    }

    /**
     * `out_degree(n)`: in the out-partition n hashes to, n's low degree,
     * or its high degree when the low degree is 0.
     */
    method OutDegree(n: int) returns (deg: nat)
      requires Valid() && numOut > 0 && n >= 0
      ensures var p := Parts()[PtHash(n, numOut)];
              deg == if p.LowDegree(n) > 0 then p.LowDegree(n) else p.hd.Degree(n)
    {
      var p := outs[PtHash(n, numOut)];
      assert p == Parts()[PtHash(n, numOut)];
      deg := L.GetDegree(p.ld, n);
      if deg == 0 {
        deg := p.hd.Degree(n);
      }
    }

    /**
     * `in_degree(n)`: as `out_degree`, but in the in-partition for a
     * directed graph (the reversed edges live there).
     */
    method InDegree(n: int) returns (deg: nat)
      requires Valid() && numOut > 0 && n >= 0
      ensures var p := Parts()[(if directed then numOut else 0) + PtHash(n, numOut)];
              deg == if p.LowDegree(n) > 0 then p.LowDegree(n) else p.hd.Degree(n)
    {
      var h := PtHash(n, numOut);
      var p;
      if directed {
        p := ins[h];
        assert p == Parts()[numOut + h];
      } else {
        p := outs[h];
        assert p == Parts()[h];
      }
      deg := L.GetDegree(p.ld, n);
      if deg == 0 {
        deg := p.hd.Degree(n);
      }
    }
  }
}
