/**
 * `rhh_bsd`, the variant of the Robin Hood table without tombstones and
 * without key comparison on insert.  A slot is empty exactly when its hash
 * word is 0; every hash the table computes has bit 31 set, and the desired
 * slot is the low 31 bits.  `insert_elem` swaps with every resident that is
 * closer to its own desired slot than the carried item is to `origin`, and
 * stops at the first empty slot; it never looks at keys, so inserting a key
 * twice stores it twice.
 *
 * Slots, the cyclic walk `At`, the distance `ProbeDist` (`cyclic_dist` has
 * the same formula), the power-of-two and load-factor tests and the count
 * of non-empty slots are shared with `RobinHood`.
 */
module RobinHoodBsd {
  import opened Types
  import R = RobinHood

  const HighBit: nat := 0x8000_0000           // bit 31
  const Uint32Range: nat := 0x1_0000_0000

  /**
   * `hash`: `(key % capacity) | 0x80000000` on a `uint32_t`.  Taking the
   * truncated remainder modulo 2^31 and adding the high bit is that OR.
   */
  function Hash(k: int, cap: nat): (h: nat)
    requires cap > 0
    ensures HighBit <= h < Uint32Range
    ensures cap <= HighBit ==> h == k % cap + HighBit
  {
    (k % cap) % HighBit + HighBit
  }

  /** `desired_pos`: `hash & 0x7FFFFFFF`. */
  function DesiredPos(h: nat): (p: nat)
    ensures p < HighBit && p <= h && (h - p) % HighBit == 0
  {
    h % HighBit
  }

  /** Every hash word of the table: 32 bits, and a desired slot inside the table. */
  predicate WellFormed<K, V>(s: seq<R.Slot<K, V>>)
  {
    forall i :: 0 <= i < |s| ==> s[i].hash < Uint32Range && DesiredPos(s[i].hash) < |s|
  }

  /** A computed hash is never the empty mark, and its desired slot is `k mod cap` for a table of at most 2^31 slots. */
  lemma HashFacts(k: int, cap: nat)
    requires 0 < cap
    ensures Hash(k, cap) != 0 && Hash(k, cap) < Uint32Range
    ensures DesiredPos(Hash(k, cap)) == (k % cap) % HighBit
    ensures DesiredPos(Hash(k, cap)) < cap
    ensures cap <= HighBit ==> DesiredPos(Hash(k, cap)) == k % cap
  {
    R.ModOnce((k % cap) % HighBit + HighBit, HighBit);
  }

  /** `cyclic_dist(o, c)` is below the capacity and 0 exactly when o == c. */
  lemma CyclicDistFacts(o: nat, c: nat, cap: nat)
    requires o < cap && c < cap
    ensures R.ProbeDist(o, c, cap) == (c + cap - o) % cap
    ensures R.ProbeDist(o, c, cap) < cap
    ensures R.ProbeDist(o, c, cap) == 0 <==> o == c
  {
    R.ProbeDistIsSourceFormula(o, c, cap);
  }

  // ---------------------------------------------------------------------
  // Abstract contents: the pairs of the non-empty slots
  // ---------------------------------------------------------------------

  ghost function Item<K, V>(s: R.Slot<K, V>): multiset<(K, V)>
  {
    if R.IsEmpty(s) then multiset{} else multiset{(s.key, s.val)}
  }

  /** The pairs stored in the slots, with multiplicity. */
  ghost function Stored<K, V>(s: seq<R.Slot<K, V>>): multiset<(K, V)>
  {
    if |s| == 0 then multiset{} else Stored(s[..|s| - 1]) + Item(s[|s| - 1])
  }

  /** As many pairs are stored as there are non-empty slots. */
  lemma {:induction false} StoredCount<K, V>(s: seq<R.Slot<K, V>>)
    ensures |Stored(s)| == R.NonEmptyCount(s)
    decreases |s|
  {
    if |s| > 0 {
      StoredCount(s[..|s| - 1]);
    }
  }

  lemma StoredPrefix<K, V>(s: seq<R.Slot<K, V>>, i: nat)
    requires i < |s|
    ensures Stored(s[..i + 1]) == Stored(s[..i]) + Item(s[i])
    ensures R.NonEmptyCount(s[..i + 1]) == R.NonEmptyCount(s[..i]) + (if R.IsEmpty(s[i]) then 0 else 1)
  {
    assert s[..i + 1][..i] == s[..i];
  }

  /** A prefix has at most as many non-empty slots as the whole. */
  lemma {:induction false} NonEmptyPrefix<K, V>(s: seq<R.Slot<K, V>>, i: nat)
    requires i <= |s|
    ensures R.NonEmptyCount(s[..i]) <= R.NonEmptyCount(s)
    decreases |s| - i
  {
    if i < |s| {
      StoredPrefix(s, i);
      NonEmptyPrefix(s, i + 1);
    } else {
      assert s[..i] == s;
    }
  }

  /** A slot array with only empty slots stores nothing. */
  lemma {:induction false} AllEmpty<K, V>(s: seq<R.Slot<K, V>>)
    requires forall i :: 0 <= i < |s| ==> R.IsEmpty(s[i])
    ensures R.NonEmptyCount(s) == 0 && Stored(s) == multiset{}
    decreases |s|
  {
    if |s| > 0 {
      AllEmpty(s[..|s| - 1]);
    }
  }

  // ---------------------------------------------------------------------
  // The insertion probe, as a function of the slots
  // ---------------------------------------------------------------------

  /** The state of the probe loop at offset d, carrying hash h. */
  predicate Ready<K, V>(s: seq<R.Slot<K, V>>, origin: nat, h: nat, d: nat)
  {
    origin < |s| && d <= |s| && WellFormed(s) && 0 < h < Uint32Range && DesiredPos(h) < |s|
  }

  /**
   * A step at offset d on a non-empty slot: a resident whose cyclic
   * distance is smaller than the distance from `origin` is swapped with the
   * carried item; any other resident is passed over.
   */
  function Carry<K, V>(s: seq<R.Slot<K, V>>, origin: nat, k: K, v: V, h: nat, d: nat)
    : (c: (seq<R.Slot<K, V>>, K, V, nat))
    requires Ready(s, origin, h, d) && d < |s| && !R.IsEmpty(s[R.At(origin, d, |s|)])
    ensures Ready(c.0, origin, c.3, d + 1) && |c.0| == |s|
  {
    var p := R.At(origin, d, |s|);
    if R.ProbeDist(origin, p, |s|) > R.ProbeDist(DesiredPos(s[p].hash), p, |s|)
    then (s[p := R.Slot(k, v, h)], s[p].key, s[p].val, s[p].hash)
    else (s, k, v, h)
  }

  /**
   * The `for (;;)` loop of `insert_elem` from offset d: `do_insert` at the
   * first empty slot (`None`: nothing left in hand), otherwise `Carry` on.
   * As in `rhh`, `origin` stays the first key's desired slot after a swap.
   * The source never stops when every slot is full; the model ends after
   * one lap with the pair still carried.
   */
  function Probe<K, V>(s: seq<R.Slot<K, V>>, origin: nat, k: K, v: V, h: nat, d: nat)
    : (res: (seq<R.Slot<K, V>>, Option<(K, V)>))
    requires Ready(s, origin, h, d)
    ensures |res.0| == |s|
    decreases |s| - d
  {
    if d == |s| then (s, Some((k, v)))
    else if R.IsEmpty(s[R.At(origin, d, |s|)]) then (s[R.At(origin, d, |s|) := R.Slot(k, v, h)], None)
    else
      var c := Carry(s, origin, k, v, h, d);
      Probe(c.0, origin, c.1, c.2, c.3, d + 1)
  }

  ghost function Hand<K, V>(r: Option<(K, V)>): multiset<(K, V)>
  {
    if r.Some? then multiset{r.value} else multiset{}
  }

  /** A step keeps the number of non-empty slots, except that a landing adds one. */
  lemma StepCount<K, V>(s: seq<R.Slot<K, V>>, origin: nat, k: K, v: V, h: nat, d: nat)
    requires Ready(s, origin, h, d) && d < |s|
    ensures var p := R.At(origin, d, |s|);
            R.IsEmpty(s[p]) ==> R.NonEmptyCount(s[p := R.Slot(k, v, h)]) == R.NonEmptyCount(s) + 1
    ensures var p := R.At(origin, d, |s|);
            !R.IsEmpty(s[p]) ==> R.NonEmptyCount(Carry(s, origin, k, v, h, d).0) == R.NonEmptyCount(s)
  {
    var p := R.At(origin, d, |s|);
    R.NonEmptyCountUpdate(s, p, R.Slot(k, v, h));
  }

  /** A probe at an empty slot lands there. */
  lemma ProbeHere<K, V>(s: seq<R.Slot<K, V>>, origin: nat, k: K, v: V, h: nat, d: nat)
    requires Ready(s, origin, h, d) && d < |s| && R.IsEmpty(s[R.At(origin, d, |s|)])
    ensures Probe(s, origin, k, v, h, d) == (s[R.At(origin, d, |s|) := R.Slot(k, v, h)], None)
  {
  }

  /** A probe at a non-empty slot goes on with what `Carry` leaves. */
  lemma ProbeNext<K, V>(s: seq<R.Slot<K, V>>, origin: nat, k: K, v: V, h: nat, d: nat)
    requires Ready(s, origin, h, d) && d < |s| && !R.IsEmpty(s[R.At(origin, d, |s|)])
    ensures var c := Carry(s, origin, k, v, h, d);
            Probe(s, origin, k, v, h, d) == Probe(c.0, origin, c.1, c.2, c.3, d + 1)
  {
  }

  /** How many non-empty slots hold the pair x: the multiplicity of x in `Stored`, slot by slot. */
  ghost function CountOf<K, V>(s: seq<R.Slot<K, V>>, x: (K, V)): nat
  {
    if |s| == 0 then 0 else CountOf(s[..|s| - 1], x) + ItemCount(s[|s| - 1], x)
  }

  ghost function ItemCount<K, V>(s: R.Slot<K, V>, x: (K, V)): nat
  {
    if !R.IsEmpty(s) && (s.key, s.val) == x then 1 else 0
  }

  ghost function HandCount<K, V>(r: Option<(K, V)>, x: (K, V)): nat
  {
    if r.Some? && r.value == x then 1 else 0
  }

  /** Overwriting one slot swaps that slot's pair for the new one, counted pair by pair. */
  lemma {:induction false} CountOfUpdate<K, V>(s: seq<R.Slot<K, V>>, p: nat, x: R.Slot<K, V>, y: (K, V))
    requires p < |s|
    ensures CountOf(s[p := x], y) + ItemCount(s[p], y) == CountOf(s, y) + ItemCount(x, y)
    decreases |s|
  {
    var t := s[p := x];
    var u := s[..|s| - 1];
    if p == |s| - 1 {
      assert t[..|s| - 1] == u;
    } else {
      assert t[..|s| - 1] == u[p := x];
      CountOfUpdate(u, p, x, y);
    }
  }

  /** `CountOf` is the multiplicity in `Stored`. */
  lemma {:induction false} StoredMultiplicity<K, V>(s: seq<R.Slot<K, V>>, y: (K, V))
    ensures Stored(s)[y] == CountOf(s, y)
    decreases |s|
  {
    if |s| > 0 {
      StoredMultiplicity(s[..|s| - 1], y);
    }
  }

  /** A step that does not land keeps the pairs, counted one by one, together with the pair in hand. */
  lemma CarryCount<K, V>(s: seq<R.Slot<K, V>>, origin: nat, k: K, v: V, h: nat, d: nat, y: (K, V))
    requires Ready(s, origin, h, d) && d < |s| && !R.IsEmpty(s[R.At(origin, d, |s|)])
    ensures var c := Carry(s, origin, k, v, h, d);
            CountOf(c.0, y) + (if y == (c.1, c.2) then 1 else 0) == CountOf(s, y) + (if y == (k, v) then 1 else 0)
  {
    var p := R.At(origin, d, |s|);
    if R.ProbeDist(origin, p, |s|) > R.ProbeDist(DesiredPos(s[p].hash), p, |s|) {
      CountOfUpdate(s, p, R.Slot(k, v, h), y);
    }
  }

  /** A landing stores the carried pair, counted pair by pair. */
  lemma LandCount<K, V>(s: seq<R.Slot<K, V>>, origin: nat, k: K, v: V, h: nat, d: nat, y: (K, V))
    requires Ready(s, origin, h, d) && d < |s| && R.IsEmpty(s[R.At(origin, d, |s|)])
    ensures var res := Probe(s, origin, k, v, h, d);
            CountOf(res.0, y) + HandCount(res.1, y) == CountOf(s, y) + (if y == (k, v) then 1 else 0)
  {
    ProbeHere(s, origin, k, v, h, d);
    CountOfUpdate(s, R.At(origin, d, |s|), R.Slot(k, v, h), y);
  }

  /** A step that does not land passes the pair count of the rest of the probe back unchanged. */
  lemma CarryThenCount<K, V>(s: seq<R.Slot<K, V>>, origin: nat, k: K, v: V, h: nat, d: nat, y: (K, V))
    requires Ready(s, origin, h, d) && d < |s| && !R.IsEmpty(s[R.At(origin, d, |s|)])
    requires var c := Carry(s, origin, k, v, h, d);
             var res := Probe(c.0, origin, c.1, c.2, c.3, d + 1);
             CountOf(res.0, y) + HandCount(res.1, y) == CountOf(c.0, y) + (if y == (c.1, c.2) then 1 else 0)
    ensures var res := Probe(s, origin, k, v, h, d);
            CountOf(res.0, y) + HandCount(res.1, y) == CountOf(s, y) + (if y == (k, v) then 1 else 0)
  {
    ProbeNext(s, origin, k, v, h, d);
    CarryCount(s, origin, k, v, h, d, y);
  }

  /** Pair by pair: the stored pairs afterwards and the pair in hand are those before and the inserted pair. */
  lemma {:induction false} ProbeCountsPairs<K, V>(s: seq<R.Slot<K, V>>, origin: nat, k: K, v: V, h: nat, d: nat,
                                                  y: (K, V))
    requires Ready(s, origin, h, d)
    ensures var res := Probe(s, origin, k, v, h, d);
            CountOf(res.0, y) + HandCount(res.1, y) == CountOf(s, y) + (if y == (k, v) then 1 else 0)
    decreases |s| - d
  {
    if d < |s| {
      if R.IsEmpty(s[R.At(origin, d, |s|)]) {
        LandCount(s, origin, k, v, h, d, y);
      } else {
        var c := Carry(s, origin, k, v, h, d);
        ProbeCountsPairs(c.0, origin, c.1, c.2, c.3, d + 1, y);
        CarryThenCount(s, origin, k, v, h, d, y);
      }
    }
  }

  /**
   * What the probe does to the stored pairs: those afterwards, with the
   * pair still in hand, are those before with the inserted pair.
   */
  lemma ProbeStored<K, V>(s: seq<R.Slot<K, V>>, origin: nat, k: K, v: V, h: nat, d: nat)
    requires Ready(s, origin, h, d)
    ensures var res := Probe(s, origin, k, v, h, d);
            Stored(res.0) + Hand(res.1) == Stored(s) + multiset{(k, v)}
  {
    var res := Probe(s, origin, k, v, h, d);
    var l, r := Stored(res.0) + Hand(res.1), Stored(s) + multiset{(k, v)};
    forall y
      ensures l[y] == r[y]
    {
      ProbeCountsPairs(s, origin, k, v, h, d, y);
      StoredMultiplicity(res.0, y);
      StoredMultiplicity(s, y);
    }
    R.MultisetExt(l, r);
  }

  /** A landing fills one more slot. */
  lemma LandNonEmpty<K, V>(s: seq<R.Slot<K, V>>, origin: nat, k: K, v: V, h: nat, d: nat)
    requires Ready(s, origin, h, d) && d < |s| && R.IsEmpty(s[R.At(origin, d, |s|)])
    ensures var res := Probe(s, origin, k, v, h, d);
            R.NonEmptyCount(res.0) == R.NonEmptyCount(s) + (if res.1.None? then 1 else 0)
  {
    StepCount(s, origin, k, v, h, d);
    ProbeHere(s, origin, k, v, h, d);
  }

  /** A step that does not land passes the slot count of the rest of the probe back unchanged. */
  lemma CarryThenNonEmpty<K, V>(s: seq<R.Slot<K, V>>, origin: nat, k: K, v: V, h: nat, d: nat)
    requires Ready(s, origin, h, d) && d < |s| && !R.IsEmpty(s[R.At(origin, d, |s|)])
    requires var c := Carry(s, origin, k, v, h, d);
             var res := Probe(c.0, origin, c.1, c.2, c.3, d + 1);
             R.NonEmptyCount(res.0) == R.NonEmptyCount(c.0) + (if res.1.None? then 1 else 0)
    ensures var res := Probe(s, origin, k, v, h, d);
            R.NonEmptyCount(res.0) == R.NonEmptyCount(s) + (if res.1.None? then 1 else 0)
  {
    StepCount(s, origin, k, v, h, d);
    ProbeNext(s, origin, k, v, h, d);
  }

  /** Every slot the probe writes carries a well-formed hash. */
  lemma {:induction false} ProbeWellFormed<K, V>(s: seq<R.Slot<K, V>>, origin: nat, k: K, v: V, h: nat, d: nat)
    requires Ready(s, origin, h, d)
    ensures WellFormed(Probe(s, origin, k, v, h, d).0)
    decreases |s| - d
  {
    if d < |s| {
      if R.IsEmpty(s[R.At(origin, d, |s|)]) {
        ProbeHere(s, origin, k, v, h, d);
      } else {
        var c := Carry(s, origin, k, v, h, d);
        ProbeNext(s, origin, k, v, h, d);
        ProbeWellFormed(c.0, origin, c.1, c.2, c.3, d + 1);
      }
    }
  }

  /** A landing adds one non-empty slot; a lap without landing adds none. */
  lemma {:induction false} ProbeCount<K, V>(s: seq<R.Slot<K, V>>, origin: nat, k: K, v: V, h: nat, d: nat)
    requires Ready(s, origin, h, d)
    ensures var res := Probe(s, origin, k, v, h, d);
            R.NonEmptyCount(res.0) == R.NonEmptyCount(s) + (if res.1.None? then 1 else 0)
    decreases |s| - d
  {
    if d < |s| {
      if R.IsEmpty(s[R.At(origin, d, |s|)]) {
        LandNonEmpty(s, origin, k, v, h, d);
      } else {
        var c := Carry(s, origin, k, v, h, d);
        ProbeCount(c.0, origin, c.1, c.2, c.3, d + 1);
        CarryThenNonEmpty(s, origin, k, v, h, d);
      }
    }
  }

  /** A probe that laps without landing passed only non-empty slots from offset d on. */
  lemma {:induction false} ProbeLapped<K, V>(s: seq<R.Slot<K, V>>, origin: nat, k: K, v: V, h: nat, d: nat)
    requires Ready(s, origin, h, d)
    ensures Probe(s, origin, k, v, h, d).1.Some? ==>
              forall j :: d <= j < |s| ==> !R.IsEmpty(s[R.At(origin, j, |s|)])
    decreases |s| - d
  {
    if d < |s| && !R.IsEmpty(s[R.At(origin, d, |s|)]) {
      var c := Carry(s, origin, k, v, h, d);
      ProbeLapped(c.0, origin, c.1, c.2, c.3, d + 1);
      if Probe(s, origin, k, v, h, d).1.Some? {
        forall j | d < j < |s|
          ensures !R.IsEmpty(s[R.At(origin, j, |s|)])
        {
          R.AtDistinct(origin, d, j, |s|);
        }
      }
    }
  }

  /** A table with an empty slot always takes the pair. */
  lemma ProbeLands<K, V>(s: seq<R.Slot<K, V>>, origin: nat, k: K, v: V, h: nat)
    requires Ready(s, origin, h, 0) && R.NonEmptyCount(s) < |s|
    ensures Probe(s, origin, k, v, h, 0).1.None?
  {
    ProbeLapped(s, origin, k, v, h, 0);
    if Probe(s, origin, k, v, h, 0).1.Some? {
      forall i | 0 <= i < |s|
        ensures !R.IsEmpty(s[i])
      {
        R.AtOfProbeDist(origin, i, |s|);
      }
      R.NonEmptyCountBound(s);
    }
  }

  /**
   * Everything the table needs about one probe from the origin into a table
   * with an empty slot: it lands, the slots stay well formed, the inserted
   * pair is stored once more and one more slot is non-empty.
   */
  lemma ProbeSummary<K, V>(s: seq<R.Slot<K, V>>, origin: nat, k: K, v: V, h: nat)
    requires Ready(s, origin, h, 0) && R.NonEmptyCount(s) < |s|
    ensures var res := Probe(s, origin, k, v, h, 0);
            && res.1.None? && WellFormed(res.0)
            && Stored(res.0) == Stored(s) + multiset{(k, v)}
            && R.NonEmptyCount(res.0) == R.NonEmptyCount(s) + 1
  {
    ProbeStored(s, origin, k, v, h, 0);
    ProbeCount(s, origin, k, v, h, 0);
    ProbeLands(s, origin, k, v, h);
    ProbeWellFormed(s, origin, k, v, h, 0);
  }

  /** No key comparison: two insertions of the same pair store it twice. */
  lemma InsertTwiceStoresTwice<K, V>(s: seq<R.Slot<K, V>>, k: K, v: V, keyNum: int)
    requires |s| > 0 && WellFormed(s) && R.NonEmptyCount(s) + 1 < |s|
    ensures var h := Hash(keyNum, |s|);
            var o := DesiredPos(h);
            var s1 := Probe(s, o, k, v, h, 0).0;
            WellFormed(s1) && Stored(Probe(s1, o, k, v, h, 0).0) == Stored(s) + multiset{(k, v), (k, v)}
  {
    var h := Hash(keyNum, |s|);
    HashFacts(keyNum, |s|);
    var o := DesiredPos(h);
    ProbeSummary(s, o, k, v, h);
    var s1 := Probe(s, o, k, v, h, 0).0;
    ProbeSummary(s1, o, k, v, h);
  }

  // ---------------------------------------------------------------------
  // Lookup
  // ---------------------------------------------------------------------

  /**
   * `find_pos` from offset d: the first slot holding the key, stopping at
   * an empty slot, at a resident with a smaller cyclic distance than d, or
   * after one lap.  There are no tombstones to skip.
   */
  function Find<K(==), V>(s: seq<R.Slot<K, V>>, origin: nat, key: K, d: nat): (r: Option<nat>)
    requires origin < |s| && WellFormed(s) && d <= |s|
    ensures r.Some? ==> r.value < |s| && !R.IsEmpty(s[r.value]) && s[r.value].key == key
    decreases |s| - d
  {
    if d == |s| then None
    else
      var p := R.At(origin, d, |s|);
      if R.IsEmpty(s[p]) then None
      else if s[p].key == key then Some(p)
      else if d > R.ProbeDist(DesiredPos(s[p].hash), p, |s|) then None
      else Find(s, origin, key, d + 1)
  }

  /** The slots from offset d up to e that `find_pos` passes over without stopping. */
  predicate PassesOver<K(==), V>(s: seq<R.Slot<K, V>>, origin: nat, key: K, d: nat, e: nat)
    requires origin < |s| && WellFormed(s) && d <= e <= |s|
  {
    forall j :: d <= j < e ==>
      var p := R.At(origin, j, |s|);
      !R.IsEmpty(s[p]) && s[p].key != key && j <= R.ProbeDist(DesiredPos(s[p].hash), p, |s|)
  }

  /** `find_pos` finds slot `At(origin, e)` exactly when it holds the key and every slot before it is passed over. */
  lemma {:induction false} FindCharacterised<K, V>(s: seq<R.Slot<K, V>>, origin: nat, key: K, d: nat, e: nat)
    requires origin < |s| && WellFormed(s) && d <= e < |s|
    ensures Find(s, origin, key, d) == Some(R.At(origin, e, |s|)) <==>
              PassesOver(s, origin, key, d, e) && !R.IsEmpty(s[R.At(origin, e, |s|)]) && s[R.At(origin, e, |s|)].key == key
    decreases e - d
  {
    if d < e {
      var p := R.At(origin, d, |s|);
      FindCharacterised(s, origin, key, d + 1, e);
      R.AtDistinct(origin, d, e, |s|);
      if PassesOver(s, origin, key, d + 1, e) && !R.IsEmpty(s[p]) && s[p].key != key
         && d <= R.ProbeDist(DesiredPos(s[p].hash), p, |s|) {
        assert PassesOver(s, origin, key, d, e);
      }
    }
  }

  /** What `find_pos` finds is a stored pair with the key. */
  lemma {:induction false} StoredHas<K, V>(s: seq<R.Slot<K, V>>, p: nat)
    requires p < |s| && !R.IsEmpty(s[p])
    ensures (s[p].key, s[p].val) in Stored(s)
    decreases |s|
  {
    if p < |s| - 1 {
      assert s[..|s| - 1][p] == s[p];
      StoredHas(s[..|s| - 1], p);
    }
  }

  lemma DoublePow2(n: nat)
    requires R.IsPow2(n)
    ensures R.IsPow2(2 * n)
  {
    assert (2 * n) / 2 == n;
  }

  /**
   * `double_capacity` after re-inserting the first i old slots `s0` into
   * `a`: at least twice as long, the pairs of those old slots stored, one
   * non-empty slot per non-empty old slot.
   */
  ghost predicate Rebuilt<K, V>(s0: seq<R.Slot<K, V>>, i: nat, top: nat, a: seq<R.Slot<K, V>>)
  {
    && i <= |s0| && 2 * |s0| <= |a| <= 20 * top && R.NonEmptyCount(s0) <= top
    && Stored(a) == Stored(s0[..i]) && R.NonEmptyCount(a) == R.NonEmptyCount(s0[..i])
  }

  lemma RebuildStart<K, V>(s0: seq<R.Slot<K, V>>, a: seq<R.Slot<K, V>>, top: nat)
    requires forall i :: 0 <= i < |a| ==> R.IsEmpty(a[i])
    requires |a| == 2 * |s0| && |s0| <= 10 * top && R.NonEmptyCount(s0) <= top
    ensures Rebuilt(s0, 0, top, a)
  {
    AllEmpty(a);
    assert s0[..0] == [];
    AllEmpty(s0[..0]);
  }

  lemma RebuildEnd<K, V>(s0: seq<R.Slot<K, V>>, a: seq<R.Slot<K, V>>, top: nat)
    requires Rebuilt(s0, |s0|, top, a)
    ensures Stored(a) == Stored(s0) && R.NonEmptyCount(a) == R.NonEmptyCount(s0)
  {
    assert s0[..|s0|] == s0;
  }

  /** Re-inserting old slot i into `a` (when it is non-empty) extends the prefix by one. */
  lemma RebuildStep<K, V>(s0: seq<R.Slot<K, V>>, i: nat, top: nat, a: seq<R.Slot<K, V>>, b: seq<R.Slot<K, V>>)
    requires Rebuilt(s0, i, top, a) && i < |s0| && 2 * |s0| <= |b| <= 20 * top
    requires R.IsEmpty(s0[i]) ==> b == a
    requires !R.IsEmpty(s0[i]) ==>
               Stored(b) == Stored(a) + multiset{(s0[i].key, s0[i].val)} && R.NonEmptyCount(b) == R.NonEmptyCount(a) + 1
    ensures Rebuilt(s0, i + 1, top, b)
  {
    StoredPrefix(s0, i);
  }

  /** Room for the next re-inserted pair. */
  lemma RebuildRoom<K, V>(s0: seq<R.Slot<K, V>>, i: nat, top: nat)
    requires i < |s0| && !R.IsEmpty(s0[i]) && R.NonEmptyCount(s0) <= top
    ensures R.NonEmptyCount(s0[..i]) < top
  {
    StoredPrefix(s0, i);
    NonEmptyPrefix(s0, i + 1);
  }

  // ---------------------------------------------------------------------
  // The table
  // ---------------------------------------------------------------------

  class Table<K(==), V> {
    var arr: array<R.Slot<K, V>>
    var size: nat
    const lfNum: nat
    const lfDen: nat
    const keyNum: K -> int
    const blankKey: K
    const blankVal: V
    ghost var Repr: set<object>

    /** Without deletion, `size` is always the number of non-empty slots. */
    ghost predicate Valid()
      reads this, Repr
    {
      Repr == {this, arr}
      && R.IsPow2(arr.Length)
      && R.LoadFactorOk(lfNum, lfDen)
      && WellFormed(arr[..])
      && R.NonEmptyCount(arr[..]) == size
    }

    predicate NeedsDouble()
      reads this
    {
      size * lfDen >= arr.Length * lfNum
    }

    /** `rhh_bsd(cap, load_factor, init_key, init_val)`: all slots (init_key, init_val, 0), size 0. */
    constructor (cap: nat, num: nat, den: nat, initKey: K, initVal: V, blankK: K, blankV: V, kn: K -> int)
      requires R.IsPow2(cap) && R.LoadFactorOk(num, den)
      ensures Valid() && fresh(Repr)
      ensures arr.Length == cap && size == 0 && Stored(arr[..]) == multiset{}
      ensures forall i :: 0 <= i < cap ==> arr[i] == R.Slot(initKey, initVal, 0)
      ensures lfNum == num && lfDen == den && keyNum == kn && blankKey == blankK && blankVal == blankV
    {
      var init := R.Slot(initKey, initVal, 0);
      arr := new R.Slot<K, V>[cap](_ => init);
      size := 0;
      lfNum, lfDen := num, den;
      keyNum := kn;
      blankKey, blankVal := blankK, blankV;
      Repr := {this, arr};
      new;
      AllEmpty(arr[..]);
    }

    /** One pass of the loop body of `insert_elem` at `pos`, offset `steps` from `origin`. */
    method ProbeStep(origin: nat, steps: nat, pos: nat, key: K, val: V, h: nat)
      returns (landed: bool, k: K, v: V, hc: nat)
      requires Ready(arr[..], origin, h, steps) && steps < arr.Length
      requires pos == R.At(origin, steps, arr.Length)
      modifies arr, this`size
      ensures landed == R.IsEmpty(old(arr[pos]))
      ensures landed ==> arr[..] == old(arr[..])[pos := R.Slot(key, val, h)] && size == old(size) + 1
      ensures !landed ==> (arr[..], k, v, hc) == Carry(old(arr[..]), origin, key, val, h, steps)
                          && size == old(size)
    {
      var cap := arr.Length;
      var s := arr[pos];
      k, v, hc := key, val, h;
      if R.IsEmpty(s) {
        arr[pos] := R.Slot(key, val, h);
        size := size + 1;
        return true, k, v, hc;
      }
      var existing := R.ProbeDist(DesiredPos(s.hash), pos, cap);
      if R.ProbeDist(origin, pos, cap) > existing {
        arr[pos] := R.Slot(key, val, h);
        k, v, hc := s.key, s.val, s.hash;
      }
      landed := false;
    }

    /** The probe loop of `insert_elem`, after the load check. */
    method ProbeInsert(key: K, val: V) returns (placed: bool)
      requires Repr == {this, arr} && arr.Length > 0 && WellFormed(arr[..])
      modifies arr, this`size
      ensures arr == old(arr)
      ensures arr[..] == Probe(old(arr[..]), DesiredPos(Hash(keyNum(key), arr.Length)), key, val, Hash(keyNum(key), arr.Length), 0).0
      ensures placed == Probe(old(arr[..]), DesiredPos(Hash(keyNum(key), arr.Length)), key, val, Hash(keyNum(key), arr.Length), 0).1.None?
      ensures size == old(size) + (if placed then 1 else 0)
    {
      var cap := arr.Length;
      HashFacts(keyNum(key), cap);
      var h0 := Hash(keyNum(key), cap);
      var origin := DesiredPos(h0);
      ghost var target := Probe(arr[..], origin, key, val, h0, 0);
      var k, v, h := key, val, h0;
      var pos := origin;
      var steps := 0;
      while steps < cap
        invariant steps <= cap && pos == R.At(origin, steps, cap) && size == old(size)
        invariant Ready(arr[..], origin, h, steps)
        invariant Probe(arr[..], origin, k, v, h, steps) == target
        decreases cap - steps
      {
        var landed, k', v', h' := ProbeStep(origin, steps, pos, k, v, h);
        if landed {
          return true;
        }
        k, v, h := k', v', h';
        R.AtNext(origin, steps, cap);
        pos := (pos + 1) % cap;
        steps := steps + 1;
      }
      return false;
    }

    /** `insert_elem`: double when `size >= capacity * load_factor`, then probe; the pair is always stored. */
    method InsertWithin(key: K, val: V, ghost top: nat)
      requires Valid() && size < top && arr.Length <= 20 * top
      modifies this, arr
      ensures Valid() && old(arr.Length) <= arr.Length <= 20 * top && (arr == old(arr) || fresh(arr))
      ensures size == old(size) + 1
      ensures Stored(arr[..]) == old(Stored(arr[..])) + multiset{(key, val)}
      ensures !old(NeedsDouble()) ==>
                arr == old(arr) && arr[..] == Probe(old(arr[..]), DesiredPos(Hash(keyNum(key), arr.Length)), key, val, Hash(keyNum(key), arr.Length), 0).0
      ensures old(NeedsDouble()) ==> fresh(arr) && arr.Length >= 2 * old(arr.Length)
      decreases 20 * top - arr.Length, 3
    {
      GrowIfFull(top);
      Place(key, val);
    }

    /** The probe of `insert_elem` once an empty slot is known to be left: the pair lands. */
    method Place(key: K, val: V)
      requires Valid() && size < arr.Length
      modifies arr, this`size
      ensures Valid() && arr == old(arr) && size == old(size) + 1
      ensures Stored(arr[..]) == old(Stored(arr[..])) + multiset{(key, val)}
      ensures arr[..] == Probe(old(arr[..]), DesiredPos(Hash(keyNum(key), arr.Length)), key, val, Hash(keyNum(key), arr.Length), 0).0
    {
      HashFacts(keyNum(key), arr.Length);
      ProbeSummary(arr[..], DesiredPos(Hash(keyNum(key), arr.Length)), key, val, Hash(keyNum(key), arr.Length));
      var _ := ProbeInsert(key, val);
    }

    /** The load check at the top of `insert_elem`; afterwards an empty slot is left. */
    method GrowIfFull(ghost top: nat)
      requires Valid() && size < top && arr.Length <= 20 * top
      modifies this
      ensures Valid() && arr.Length <= 20 * top && (arr == old(arr) || fresh(arr))
      ensures size == old(size) && size < arr.Length && Stored(arr[..]) == old(Stored(arr[..]))
      ensures !old(NeedsDouble()) ==> arr == old(arr)
      ensures old(NeedsDouble()) ==> fresh(arr) && arr.Length >= 2 * old(arr.Length)
      decreases 20 * top - arr.Length, 2
    {
      R.LoadBound(size, arr.Length, lfNum, lfDen);
      R.NonEmptyCountBound(arr[..]);
      if NeedsDouble() {
        DoubleCapacity(top);
      }
    }

    /**
     * `double_capacity`: a new array of twice the capacity filled with
     * `elem()` slots, size 0, then `insert_elem` of every non-empty old slot
     * in slot order.
     */
    method DoubleCapacity(ghost top: nat)
      requires Valid() && size <= top && arr.Length <= 10 * top
      modifies this
      ensures Valid() && fresh(arr) && 2 * old(arr.Length) <= arr.Length <= 20 * top
      ensures size == old(size) && Stored(arr[..]) == old(Stored(arr[..]))
      decreases 20 * top - arr.Length, 1
    {
      var oldArr := arr;
      ghost var s0 := arr[..];
      var blank := R.Slot(blankKey, blankVal, 0);
      DoublePow2(oldArr.Length);
      arr := new R.Slot<K, V>[2 * oldArr.Length](_ => blank);
      Repr := {this, arr};
      size := 0;
      RebuildStart(s0, arr[..], top);
      var i := 0;
      while i < oldArr.Length
        invariant 0 <= i <= oldArr.Length && oldArr[..] == s0 && fresh(arr)
        invariant Valid() && Rebuilt(s0, i, top, arr[..])
        decreases oldArr.Length - i
      {
        Reinsert(oldArr, i, s0, top);
        i := i + 1;
      }
      RebuildEnd(s0, arr[..], top);
    }

    /** One iteration of the loop of `double_capacity`. */
    method Reinsert(oldArr: array<R.Slot<K, V>>, i: nat, ghost s0: seq<R.Slot<K, V>>, ghost top: nat)
      requires i < oldArr.Length && oldArr[..] == s0 && oldArr != arr
      requires Valid() && Rebuilt(s0, i, top, arr[..])
      modifies this, arr
      ensures Valid() && Rebuilt(s0, i + 1, top, arr[..]) && (arr == old(arr) || fresh(arr))
      decreases 20 * top - oldArr.Length, 0
    {
      ghost var a := arr[..];
      var x := oldArr[i];
      if !R.IsEmpty(x) {
        RebuildRoom(s0, i, top);
        InsertWithin(x.key, x.val, top);
      }
      RebuildStep(s0, i, top, a, arr[..]);
    }

    /** The public `insert_elem`. */
    method InsertElem(key: K, val: V)
      requires Valid()
      modifies this, arr
      ensures Valid() && (arr == old(arr) || fresh(arr))
      ensures size == old(size) + 1
      ensures Stored(arr[..]) == old(Stored(arr[..])) + multiset{(key, val)}
      ensures !old(NeedsDouble()) ==>
                arr == old(arr) && arr[..] == Probe(old(arr[..]), DesiredPos(Hash(keyNum(key), arr.Length)), key, val, Hash(keyNum(key), arr.Length), 0).0
      ensures old(NeedsDouble()) ==> fresh(arr) && arr.Length >= 2 * old(arr.Length)
    {
      R.NonEmptyCountBound(arr[..]);
      InsertWithin(key, val, size + arr.Length + 1);
    }

    /** `find_pos`. */
    method FindPos(key: K) returns (found: bool, pos: nat)
      requires Valid()
      ensures found == Find(arr[..], DesiredPos(Hash(keyNum(key), arr.Length)), key, 0).Some?
      ensures found ==> pos == Find(arr[..], DesiredPos(Hash(keyNum(key), arr.Length)), key, 0).value
    {
      var cap := arr.Length;
      HashFacts(keyNum(key), cap);
      var origin := DesiredPos(Hash(keyNum(key), cap));
      pos := origin;
      var d := 0;
      while d < cap
        invariant d <= cap
        invariant Find(arr[..], origin, key, d) == Find(arr[..], origin, key, 0)
        decreases cap - d
      {
        R.AtIsSourceFormula(origin, d, cap);
        pos := (origin + d) % cap;
        if R.IsEmpty(arr[pos]) {
          break;
        } else if arr[pos].key == key {
          return true, pos;
        } else if d > R.ProbeDist(DesiredPos(arr[pos].hash), pos, cap) {
          break;
        }
        d := d + 1;
      }
      return false, pos;
    }

    /** `get_elem`: the value at the slot `find_pos` found, a stored pair under the key; the table is not changed. */
    method GetElem(key: K, val0: V) returns (found: bool, val: V)
      requires Valid()
      ensures found == Find(arr[..], DesiredPos(Hash(keyNum(key), arr.Length)), key, 0).Some?
      ensures found ==> val == arr[Find(arr[..], DesiredPos(Hash(keyNum(key), arr.Length)), key, 0).value].val
      ensures found ==> (key, val) in Stored(arr[..])
      ensures !found ==> val == val0
    {
      var i;
      found, i := FindPos(key);
      val := val0;
      if found {
        val := arr[i].val;
        StoredHas(arr[..], i);
      }
    }
  }
}
