/**
 * The Robin-Hood open-addressing hash table `rhh<K, V>` that the
 * degree-aware container is built from.
 *
 * A slot carries a key, a value and a 32-bit hash word.  The hash word is 0
 * for an empty slot; a stored key has bit 30 set and its desired position in
 * the low 30 bits; deletion sets bit 31 and leaves the slot in place (a
 * tombstone).  Hash words are modelled as naturals below 2^32 and the bit
 * operations are written out as arithmetic.
 *
 * The table is generic in K and V.  The only thing it needs of a key besides
 * equality is the integer that `key % capacity` reduces, given as `keyNum`.
 */
module RobinHood {
  import opened Types

  const PosRange: nat := 0x4000_0000        // the 30 position bits
  const LiveBit: nat := 0x4000_0000         // bit 30
  const DeletedBit: nat := 0x8000_0000      // bit 31
  const Uint32Range: nat := 0x1_0000_0000

  datatype Slot<K, V> = Slot(key: K, val: V, hash: nat)

  /** `rhh_elem::empty`: the hash word is 0. */
  predicate IsEmpty<K, V>(s: Slot<K, V>): (b: bool)
    ensures b ==> !IsDeleted(s)
  {
    s.hash == 0
  }

  /** `rhh_elem::deleted`: `hash >> 31 == 1` for a 32-bit hash word. */
  predicate IsDeleted<K, V>(s: Slot<K, V>): (b: bool)
    ensures s.hash < Uint32Range ==> (b <==> s.hash >= DeletedBit)
  {
    s.hash / DeletedBit == 1
  }

  predicate IsLive<K, V>(s: Slot<K, V>)
  {
    !IsEmpty(s) && !IsDeleted(s)
  }

  /** A hash word that a stored, non-deleted key can carry. */
  predicate IsLiveHash(h: nat)
  {
    0 < h < DeletedBit
  }

  /** `mark_deleted`: `hash |= 0x80000000`. */
  function MarkDeleted(h: nat): (r: nat)
    requires h < Uint32Range
    ensures DeletedBit <= r < Uint32Range
    ensures r % DeletedBit == h % DeletedBit
  {
    if h >= DeletedBit then h else h + DeletedBit
  }

  /** `hash`: `((key % capacity) & 0x3FFFFFFF) | 0x40000000`. */
  function HashOf(k: int, cap: nat): (h: nat)
    requires cap > 0
    ensures IsLiveHash(h)
    ensures cap <= PosRange ==> h == k % cap + LiveBit
  {
    (k % cap) % PosRange + LiveBit
  }

  /** `desired_pos`: `hash & 0x3FFFFFFF`. */
  function DesiredPos(h: nat): (p: nat)
    ensures p < PosRange && p <= h && (h - p) % PosRange == 0
  {
    h % PosRange
  }

  /**
   * `probe_dist`: how far `cursor` lies after `origin` going round the
   * table.  The source computes `(cursor + capacity - origin) % capacity`;
   * `ProbeDistIsSourceFormula` shows the two agree.  Both positions are
   * below the capacity, so the unsigned 32-bit sum does not wrap for any
   * capacity up to 2^31.
   */
  function ProbeDist(origin: nat, cursor: nat, cap: nat): (d: nat)
    requires origin < cap && cursor < cap
    ensures d < cap
  {
    if cursor >= origin then cursor - origin else cursor + cap - origin
  }

  predicate IsPow2(n: nat)
    decreases n
  {
    n == 1 || (n > 1 && n % 2 == 0 && IsPow2(n / 2))
  }

  /** The constructor's assertion `load_factor >= 0.1 && load_factor <= 1`, on num/den. */
  predicate LoadFactorOk(num: nat, den: nat)
  {
    den > 0 && num <= den && 10 * num >= den
  }

  // ---------------------------------------------------------------------
  // Facts about the hash word
  // ---------------------------------------------------------------------

  /** A freshly hashed key is neither empty nor deleted, and its desired slot is `k mod cap`. */
  lemma HashOfIsLive(k: int, cap: nat)
    requires 0 < cap <= PosRange
    ensures IsLiveHash(HashOf(k, cap))
    ensures IsLive(Slot((), (), HashOf(k, cap)))
    ensures DesiredPos(HashOf(k, cap)) == k % cap
  {
  }

  /** Marking deleted yields a deleted, non-empty slot with the same desired position. */
  lemma MarkDeletedFacts(h: nat)
    requires h < Uint32Range
    ensures IsDeleted(Slot((), (), MarkDeleted(h)))
    ensures !IsEmpty(Slot((), (), MarkDeleted(h)))
    ensures DesiredPos(MarkDeleted(h)) == DesiredPos(h)
    ensures MarkDeleted(h) < Uint32Range
  {
  }

  /**
   * The slot `d` steps after `origin`, going round a table of `cap` slots:
   * `(origin + d) % cap`, which `AtIsSourceFormula` shows, for d up to one lap.
   */
  function At(origin: nat, d: nat, cap: nat): (p: nat)
    requires origin < cap && d <= cap
    ensures p < cap
  {
    if origin + d < cap then origin + d else origin + d - cap
  }

  lemma ModSmall(x: int, m: int)
    requires 0 <= x < m
    ensures x % m == x
  {
  }

  lemma ModOnce(x: int, m: int)
    requires m <= x < 2 * m
    ensures x % m == x - m
  {
  }

  lemma ProbeDistIsSourceFormula(origin: nat, cursor: nat, cap: nat)
    requires origin < cap && cursor < cap
    ensures ProbeDist(origin, cursor, cap) == (cursor + cap - origin) % cap
  {
    if cursor >= origin { ModOnce(cursor + cap - origin, cap); } else { ModSmall(cursor + cap - origin, cap); }
  }

  lemma AtIsSourceFormula(origin: nat, d: nat, cap: nat)
    requires origin < cap && d <= cap
    ensures At(origin, d, cap) == (origin + d) % cap
  {
    if origin + d < cap { ModSmall(origin + d, cap); } else { ModOnce(origin + d, cap); }
  }

  /** One more step is one more slot: the `(pos + 1) % capacity` of the probe loops. */
  lemma AtNext(origin: nat, d: nat, cap: nat)
    requires origin < cap && d < cap
    ensures (At(origin, d, cap) + 1) % cap == At(origin, d + 1, cap)
  {
    var p := At(origin, d, cap);
    if p + 1 < cap { ModSmall(p + 1, cap); } else { ModOnce(p + 1, cap); }
  }

  /** Walking d < cap steps from `origin` is a probe distance of exactly d. */
  lemma ProbeDistOfAt(origin: nat, d: nat, cap: nat)
    requires origin < cap && d < cap
    ensures ProbeDist(origin, At(origin, d, cap), cap) == d
  {
  }

  /** Every slot is reached from `origin` after exactly its probe distance. */
  lemma AtOfProbeDist(origin: nat, cursor: nat, cap: nat)
    requires origin < cap && cursor < cap
    ensures At(origin, ProbeDist(origin, cursor, cap), cap) == cursor
  {
  }

  /** Two offsets within one lap reach different slots. */
  lemma AtDistinct(origin: nat, d1: nat, d2: nat, cap: nat)
    requires origin < cap && d1 < cap && d2 < cap && d1 != d2
    ensures At(origin, d1, cap) != At(origin, d2, cap)
  {
  }

  // ---------------------------------------------------------------------
  // Abstract contents
  // ---------------------------------------------------------------------

  /** The pairs of a slot when it is live. */
  ghost function Item<K, V>(s: Slot<K, V>): multiset<(K, V)>
  {
    if IsLive(s) then multiset{(s.key, s.val)} else multiset{}
  }

  /** The multiset of live (key, value) pairs of a slot array. */
  ghost function LiveOf<K, V>(s: seq<Slot<K, V>>): multiset<(K, V)>
  {
    if |s| == 0 then multiset{} else LiveOf(s[..|s| - 1]) + Item(s[|s| - 1])
  }

  /** How many live slots hold the pair x: the multiplicity of x in `LiveOf`, by slot. */
  ghost function CountOf<K, V>(s: seq<Slot<K, V>>, x: (K, V)): nat
  {
    if |s| == 0 then 0 else CountOf(s[..|s| - 1], x) + ItemCount(s[|s| - 1], x)
  }

  ghost function ItemCount<K, V>(s: Slot<K, V>, x: (K, V)): nat
  {
    if IsLive(s) && (s.key, s.val) == x then 1 else 0
  }

  function NonEmptyCount<K, V>(s: seq<Slot<K, V>>): nat
  {
    if |s| == 0 then 0 else NonEmptyCount(s[..|s| - 1]) + (if IsEmpty(s[|s| - 1]) then 0 else 1)
  }

  predicate NoTombstones<K, V>(s: seq<Slot<K, V>>)
  {
    forall i :: 0 <= i < |s| ==> !IsDeleted(s[i])
  }

  /** Every hash word fits in 32 bits and names a slot of this table as its desired position. */
  predicate WellFormed<K, V>(s: seq<Slot<K, V>>)
  {
    forall i :: 0 <= i < |s| ==> s[i].hash < Uint32Range && DesiredPos(s[i].hash) < |s|
  }

  /** No key occurs twice among the pairs (counting multiplicity). */
  ghost predicate KeysDistinct<K, V>(m: multiset<(K, V)>)
  {
    forall a, b {:trigger SameKey(a, b)} :: a in m && b in m && SameKey(a, b) ==> a == b && m[a] == 1
  }

  /**
   * Pairs a and b have the same key.  `KeysDistinct` speaks of it, so that
   * its quantifier applies only to pairs a proof names.
   */
  ghost predicate SameKey<K, V>(a: (K, V), b: (K, V))
  {
    KeyOf(a) == KeyOf(b)
  }

  /** The key of a pair. */
  function KeyOf<K, V>(a: (K, V)): K
  {
    a.0
  }

  lemma MultisetShuffle<T>(a: multiset<T>, b: multiset<T>, x: multiset<T>, y: multiset<T>, z: multiset<T>)
    requires b + y == a + x
    ensures b + z + y == a + z + x
  {
    calc {
      b + z + y;
      b + y + z;
      a + x + z;
      a + z + x;
    }
  }

  /** Overwriting one slot swaps that slot's pair for the new one. */
  lemma {:induction false} LiveOfUpdate<K, V>(s: seq<Slot<K, V>>, p: nat, x: Slot<K, V>)
    requires p < |s|
    ensures LiveOf(s[p := x]) + Item(s[p]) == LiveOf(s) + Item(x)
    decreases |s|
  {
    var t := s[p := x];
    var n := |s|;
    var u := s[..n - 1];
    if p == n - 1 {
      assert t[..n - 1] == u;
    } else {
      assert t[..n - 1] == u[p := x];
      LiveOfUpdate(u, p, x);
      MultisetShuffle(LiveOf(u), LiveOf(t[..n - 1]), Item(x), Item(s[p]), Item(s[n - 1]));
    }
  }

  /** Overwriting one slot swaps that slot's pair for the new one, counted pair by pair. */
  lemma {:induction false} CountOfUpdate<K, V>(s: seq<Slot<K, V>>, p: nat, x: Slot<K, V>, y: (K, V))
    requires p < |s|
    ensures CountOf(s[p := x], y) + ItemCount(s[p], y) == CountOf(s, y) + ItemCount(x, y)
    decreases |s|
  {
    var t := s[p := x];
    var u := s[..|s| - 1];
    if p == |s| - 1 {
      assert t[..|s| - 1] == u;
    } else {
      assert t[..|s| - 1] == u[p := x];
      CountOfUpdate(u, p, x, y);
    }
  }

  /** `CountOf` is the multiplicity in `LiveOf`. */
  lemma {:induction false} LiveOfCount<K, V>(s: seq<Slot<K, V>>, y: (K, V))
    ensures LiveOf(s)[y] == CountOf(s, y)
    decreases |s|
  {
    if |s| > 0 {
      LiveOfCount(s[..|s| - 1], y);
    }
  }

  lemma {:induction false} NonEmptyCountUpdate<K, V>(s: seq<Slot<K, V>>, p: nat, x: Slot<K, V>)
    requires p < |s|
    ensures NonEmptyCount(s[p := x]) + (if IsEmpty(s[p]) then 0 else 1)
         == NonEmptyCount(s) + (if IsEmpty(x) then 0 else 1)
    decreases |s|
  {
    var t := s[p := x];
    if p == |s| - 1 {
      assert t[..|t| - 1] == s[..|s| - 1];
    } else {
      assert t[..|t| - 1] == s[..|s| - 1][p := x];
      NonEmptyCountUpdate(s[..|s| - 1], p, x);
    }
  }

  lemma {:induction false} NonEmptyCountBound<K, V>(s: seq<Slot<K, V>>)
    ensures NonEmptyCount(s) <= |s|
    ensures NonEmptyCount(s) == |s| <==> forall i :: 0 <= i < |s| ==> !IsEmpty(s[i])
    decreases |s|
  {
    if |s| > 0 {
      var u := s[..|s| - 1];
      NonEmptyCountBound(u);
      assert forall i :: 0 <= i < |u| ==> u[i] == s[i];
    }
  }

  lemma {:induction false} LiveCountBound<K, V>(s: seq<Slot<K, V>>)
    ensures |LiveOf(s)| <= NonEmptyCount(s) <= |s|
    ensures NoTombstones(s) ==> |LiveOf(s)| == NonEmptyCount(s)
    decreases |s|
  {
    NonEmptyCountBound(s);
    if |s| > 0 {
      var u := s[..|s| - 1];
      LiveCountBound(u);
      assert NoTombstones(s) ==> NoTombstones(u) by {
        assert forall i :: 0 <= i < |u| ==> u[i] == s[i];
      }
    }
  }

  lemma {:induction false} LiveOfHas<K, V>(s: seq<Slot<K, V>>, p: nat)
    requires p < |s|
    ensures Item(s[p]) <= LiveOf(s)
    decreases |s|
  {
    if p < |s| - 1 {
      assert s[..|s| - 1][p] == s[p];
      LiveOfHas(s[..|s| - 1], p);
    }
  }

  lemma LiveOfPrefix<K, V>(s: seq<Slot<K, V>>, i: nat)
    requires i < |s|
    ensures LiveOf(s[..i + 1]) == LiveOf(s[..i]) + Item(s[i])
  {
    assert s[..i + 1][..i] == s[..i];
  }

  lemma {:induction false} LiveOfPrefixSub<K, V>(s: seq<Slot<K, V>>, i: nat)
    requires i <= |s|
    ensures LiveOf(s[..i]) <= LiveOf(s)
    decreases |s| - i
  {
    if i < |s| {
      LiveOfPrefix(s, i);
      LiveOfPrefixSub(s, i + 1);
    } else {
      assert s[..i] == s;
    }
  }

  lemma KeysDistinctSub<K, V>(m: multiset<(K, V)>, n: multiset<(K, V)>)
    requires n <= m && KeysDistinct(m)
    ensures KeysDistinct(n)
  {
    forall a, b | a in n && b in n && SameKey(a, b)
      ensures a == b && n[a] == 1
    {
    }
  }

  lemma SubCard<K, V>(a: multiset<(K, V)>, b: multiset<(K, V)>)
    requires a <= b
    ensures |a| <= |b|
  {
    assert b == a + (b - a);
  }

  // ---------------------------------------------------------------------
  // The probe loops, as functions of the slot array
  // ---------------------------------------------------------------------

  /** What the insertion probe needs in order to be defined from offset d while carrying hash h. */
  predicate ProbeReady<K, V>(s: seq<Slot<K, V>>, origin: nat, h: nat, d: nat)
  {
    origin < |s| && d <= |s| && WellFormed(s) && h < Uint32Range && DesiredPos(h) < |s|
  }

  /** How one call of `insert_elem` ended. */
  datatype InsertOutcome<K, V> =
    | Placed(intoTombstone: bool)     // `do_insert` into an empty slot or into a tombstone
    | Updated(key: K, oldVal: V)      // a live slot held the carried key
    | Revived                         // a tombstone held the carried key
    | Unfinished(key: K, val: V)      // a whole lap found no place for the pair still carried

  /** The probe ends at offset d: an empty slot, a slot with the carried key, or a poorer tombstone. */
  predicate LandsAt<K(==), V>(s: seq<Slot<K, V>>, origin: nat, k: K, h: nat, d: nat)
    requires ProbeReady(s, origin, h, d) && d < |s|
  {
    var p := At(origin, d, |s|);
    IsEmpty(s[p]) || s[p].key == k
    || (ProbeDist(origin, p, |s|) > ProbeDist(DesiredPos(s[p].hash), p, |s|) && IsDeleted(s[p]))
  }

  /**
   * The last step of a probe that lands at offset d: an empty slot takes the
   * item (`do_insert`); a slot with the carried key gets the value and, when
   * it was deleted, the carried hash; a poorer tombstone is overwritten
   * (`do_insert`).
   */
  function Land<K(==), V>(s: seq<Slot<K, V>>, origin: nat, k: K, v: V, h: nat, d: nat)
    : (res: (seq<Slot<K, V>>, InsertOutcome<K, V>))
    requires ProbeReady(s, origin, h, d) && d < |s| && LandsAt(s, origin, k, h, d)
    ensures |res.0| == |s| && WellFormed(res.0)
  {
    var p := At(origin, d, |s|);
    if IsEmpty(s[p]) then (s[p := Slot(k, v, h)], Placed(false))
    else if s[p].key == k then
      if IsDeleted(s[p]) then (s[p := Slot(k, v, h)], Revived)
      else (s[p := s[p].(val := v)], Updated(k, s[p].val))
    else (s[p := Slot(k, v, h)], Placed(true))
  }

  /**
   * A step at offset d that does not land: a resident whose probe distance
   * is smaller than the distance from `origin` is swapped with the carried
   * item, any other resident is passed over.  The result is the new slots
   * and the key, value and hash carried to offset d + 1.
   */
  function Carry<K(==), V>(s: seq<Slot<K, V>>, origin: nat, k: K, v: V, h: nat, d: nat)
    : (c: (seq<Slot<K, V>>, K, V, nat))
    requires ProbeReady(s, origin, h, d) && d < |s|
    ensures ProbeReady(c.0, origin, c.3, d + 1) && |c.0| == |s|
  {
    var p := At(origin, d, |s|);
    if ProbeDist(origin, p, |s|) > ProbeDist(DesiredPos(s[p].hash), p, |s|)
    then (s[p := Slot(k, v, h)], s[p].key, s[p].val, s[p].hash)
    else (s, k, v, h)
  }

  /**
   * The `for (;;)` loop of `insert_elem` from offset d, carrying (k, v, h):
   * land at the first slot where `LandsAt` holds, otherwise `Carry` on to the
   * next slot.  As in the source, `origin` stays the first key's desired
   * slot after a swap.  The source never stops when no slot is free; the
   * model ends after one lap with `Unfinished`.
   */
  function ProbeRun<K(==), V>(s: seq<Slot<K, V>>, origin: nat, k: K, v: V, h: nat, d: nat)
    : (res: (seq<Slot<K, V>>, InsertOutcome<K, V>))
    requires ProbeReady(s, origin, h, d)
    ensures |res.0| == |s|
    decreases |s| - d, 1
  {
    if d == |s| then (s, Unfinished(k, v))
    else if LandsAt(s, origin, k, h, d) then Land(s, origin, k, v, h, d)
    else ProbeOn(s, origin, k, v, h, d)
  }

  /** The rest of the probe after a step at offset d that did not land. */
  function ProbeOn<K(==), V>(s: seq<Slot<K, V>>, origin: nat, k: K, v: V, h: nat, d: nat)
    : (res: (seq<Slot<K, V>>, InsertOutcome<K, V>))
    requires ProbeReady(s, origin, h, d) && d < |s|
    ensures |res.0| == |s|
    decreases |s| - d, 0
  {
    var c := Carry(s, origin, k, v, h, d);
    ProbeRun(c.0, origin, c.1, c.2, c.3, d + 1)
  }

  /** The pair an insertion still holds when it stops: the replaced pair of an update, or the carried pair of an unfinished lap. */
  ghost function Hand<K, V>(r: InsertOutcome<K, V>): multiset<(K, V)>
  {
    match r
    case Updated(k, v) => multiset{(k, v)}
    case Unfinished(k, v) => multiset{(k, v)}
    case _ => multiset{}
  }

  lemma LiveSlotHash<K, V>(x: Slot<K, V>)
    requires IsLive(x) && x.hash < Uint32Range
    ensures IsLiveHash(x.hash)
  {
  }

  /**
   * A step that does not land hands the rest of the probe to offset d + 1,
   * carrying a live hash: a displaced resident is live.
   */
  lemma CarryStep<K, V>(s: seq<Slot<K, V>>, origin: nat, k: K, v: V, h: nat, d: nat)
    requires ProbeReady(s, origin, h, d) && IsLiveHash(h) && d < |s| && !LandsAt(s, origin, k, h, d)
    ensures var c := Carry(s, origin, k, v, h, d);
            IsLiveHash(c.3) && ProbeRun(s, origin, k, v, h, d) == ProbeRun(c.0, origin, c.1, c.2, c.3, d + 1)
  {
    var p := At(origin, d, |s|);
    if ProbeDist(origin, p, |s|) > ProbeDist(DesiredPos(s[p].hash), p, |s|) {
      LiveSlotHash(s[p]);
    }
  }

  /** A probe that lands at offset d ends there. */
  lemma ProbeRunLands<K, V>(s: seq<Slot<K, V>>, origin: nat, k: K, v: V, h: nat, d: nat)
    requires ProbeReady(s, origin, h, d) && d < |s| && LandsAt(s, origin, k, h, d)
    ensures ProbeRun(s, origin, k, v, h, d) == Land(s, origin, k, v, h, d)
  {
  }

  // --- the number of non-empty slots ---

  lemma LandCounts<K, V>(s: seq<Slot<K, V>>, origin: nat, k: K, v: V, h: nat, d: nat)
    requires ProbeReady(s, origin, h, d) && IsLiveHash(h) && d < |s| && LandsAt(s, origin, k, h, d)
    ensures NonEmptyCount(Land(s, origin, k, v, h, d).0)
         == NonEmptyCount(s) + (if Land(s, origin, k, v, h, d).1 == Placed(false) then 1 else 0)
  {
    var p := At(origin, d, |s|);
    if IsEmpty(s[p]) || IsDeleted(s[p]) || s[p].key != k {
      NonEmptyCountUpdate(s, p, Slot(k, v, h));
    } else {
      NonEmptyCountUpdate(s, p, s[p].(val := v));
    }
  }

  lemma CarryCounts<K, V>(s: seq<Slot<K, V>>, origin: nat, k: K, v: V, h: nat, d: nat)
    requires ProbeReady(s, origin, h, d) && IsLiveHash(h) && d < |s| && !LandsAt(s, origin, k, h, d)
    ensures NonEmptyCount(Carry(s, origin, k, v, h, d).0) == NonEmptyCount(s)
  {
    var p := At(origin, d, |s|);
    if ProbeDist(origin, p, |s|) > ProbeDist(DesiredPos(s[p].hash), p, |s|) {
      NonEmptyCountUpdate(s, p, Slot(k, v, h));
    }
  }

  /** The probe keeps the hash words well formed, and only a landing in an empty slot adds a non-empty slot. */
  lemma {:induction false} ProbeRunCounts<K, V>(s: seq<Slot<K, V>>, origin: nat, k: K, v: V, h: nat, d: nat)
    requires ProbeReady(s, origin, h, d) && IsLiveHash(h)
    ensures WellFormed(ProbeRun(s, origin, k, v, h, d).0)
    ensures NonEmptyCount(ProbeRun(s, origin, k, v, h, d).0)
         == NonEmptyCount(s) + (if ProbeRun(s, origin, k, v, h, d).1 == Placed(false) then 1 else 0)
    decreases |s| - d
  {
    if d < |s| && !LandsAt(s, origin, k, h, d) {
      var c := Carry(s, origin, k, v, h, d);
      CarryStep(s, origin, k, v, h, d);
      CarryCounts(s, origin, k, v, h, d);
      ProbeRunCounts(c.0, origin, c.1, c.2, c.3, d + 1);
    } else if d < |s| {
      LandCounts(s, origin, k, v, h, d);
    }
  }

  // --- the live pairs ---

  /** How often the pair still in hand is x. */
  ghost function HandCount<K, V>(r: InsertOutcome<K, V>, x: (K, V)): nat
  {
    match r
    case Updated(k, v) => if (k, v) == x then 1 else 0
    case Unfinished(k, v) => if (k, v) == x then 1 else 0
    case _ => 0
  }

  lemma LandLive<K, V>(s: seq<Slot<K, V>>, origin: nat, k: K, v: V, h: nat, d: nat, y: (K, V))
    requires ProbeReady(s, origin, h, d) && IsLiveHash(h) && d < |s| && LandsAt(s, origin, k, h, d)
    ensures var res := Land(s, origin, k, v, h, d);
            CountOf(res.0, y) + HandCount(res.1, y) == CountOf(s, y) + (if y == (k, v) then 1 else 0)
  {
    var p := At(origin, d, |s|);
    var res := Land(s, origin, k, v, h, d);
    var x := res.0[p];
    assert res.0 == s[p := x];
    CountOfUpdate(s, p, x, y);
  }

  /** A step that does not land keeps the live pairs together with the carried pair. */
  lemma CarryLive<K, V>(s: seq<Slot<K, V>>, origin: nat, k: K, v: V, h: nat, d: nat, y: (K, V))
    requires ProbeReady(s, origin, h, d) && IsLiveHash(h) && d < |s| && !LandsAt(s, origin, k, h, d)
    ensures var c := Carry(s, origin, k, v, h, d);
            CountOf(c.0, y) + (if y == (c.1, c.2) then 1 else 0) == CountOf(s, y) + (if y == (k, v) then 1 else 0)
  {
    var p := At(origin, d, |s|);
    if ProbeDist(origin, p, |s|) > ProbeDist(DesiredPos(s[p].hash), p, |s|) {
      CountOfUpdate(s, p, Slot(k, v, h), y);
    }
  }

  /**
   * Pair by pair: the live pairs afterwards and the pair left in hand are
   * the live pairs before and the inserted pair.
   */
  lemma {:induction false} ProbeRunCountsPairs<K, V>(s: seq<Slot<K, V>>, origin: nat, k: K, v: V, h: nat, d: nat,
                                                     y: (K, V))
    requires ProbeReady(s, origin, h, d) && IsLiveHash(h)
    ensures var res := ProbeRun(s, origin, k, v, h, d);
            CountOf(res.0, y) + HandCount(res.1, y) == CountOf(s, y) + (if y == (k, v) then 1 else 0)
    decreases |s| - d
  {
    if d < |s| && !LandsAt(s, origin, k, h, d) {
      var c := Carry(s, origin, k, v, h, d);
      CarryStep(s, origin, k, v, h, d);
      CarryLive(s, origin, k, v, h, d, y);
      ProbeRunCountsPairs(c.0, origin, c.1, c.2, c.3, d + 1, y);
      assert ProbeRun(s, origin, k, v, h, d) == ProbeRun(c.0, origin, c.1, c.2, c.3, d + 1);
    } else if d < |s| {
      LandLive(s, origin, k, v, h, d, y);
      assert ProbeRun(s, origin, k, v, h, d) == Land(s, origin, k, v, h, d);
    }
  }

  lemma MultisetExt<T>(l: multiset<T>, r: multiset<T>)
    requires forall y :: l[y] == r[y]
    ensures l == r
  {
  }

  lemma HandCountIs<K, V>(r: InsertOutcome<K, V>, y: (K, V))
    ensures Hand(r)[y] == HandCount(r, y)
  {
  }

  /** Equal pair counts, slot array by slot array, give equal live pairs. */
  lemma {:induction false} LiveOfFromCounts<K, V>(a: seq<Slot<K, V>>, ha: multiset<(K, V)>,
                                                  b: seq<Slot<K, V>>, hb: multiset<(K, V)>)
    requires forall y :: CountOf(a, y) + ha[y] == CountOf(b, y) + hb[y]
    ensures LiveOf(a) + ha == LiveOf(b) + hb
  {
    var l, r := LiveOf(a) + ha, LiveOf(b) + hb;
    forall y
      ensures l[y] == r[y]
    {
      LiveOfCount(a, y);
      LiveOfCount(b, y);
    }
    MultisetExt(l, r);
  }

  /** The live pairs afterwards and the pair left in hand are the live pairs before and the inserted pair. */
  lemma ProbeRunLive<K, V>(s: seq<Slot<K, V>>, origin: nat, k: K, v: V, h: nat, d: nat)
    requires ProbeReady(s, origin, h, d) && IsLiveHash(h)
    ensures var res := ProbeRun(s, origin, k, v, h, d);
            LiveOf(res.0) + Hand(res.1) == LiveOf(s) + multiset{(k, v)}
  {
    var res := ProbeRun(s, origin, k, v, h, d);
    forall y
      ensures CountOf(res.0, y) + Hand(res.1)[y] == CountOf(s, y) + multiset{(k, v)}[y]
    {
      ProbeRunCountsPairs(s, origin, k, v, h, d, y);
      HandCountIs(res.1, y);
    }
    LiveOfFromCounts(res.0, Hand(res.1), s, multiset{(k, v)});
  }

  /** An update leaves a live slot with the updated key. */
  lemma {:induction false} ProbeRunUpdateLive<K, V>(s: seq<Slot<K, V>>, origin: nat, k: K, v: V, h: nat, d: nat)
    requires ProbeReady(s, origin, h, d) && IsLiveHash(h)
    ensures var res := ProbeRun(s, origin, k, v, h, d);
            res.1.Updated? ==> exists i :: 0 <= i < |res.0| && IsLive(res.0[i]) && res.0[i].key == res.1.key
    decreases |s| - d
  {
    if d < |s| && !LandsAt(s, origin, k, h, d) {
      var c := Carry(s, origin, k, v, h, d);
      CarryStep(s, origin, k, v, h, d);
      ProbeRunUpdateLive(c.0, origin, c.1, c.2, c.3, d + 1);
    } else if d < |s| {
      var p := At(origin, d, |s|);
      var res := Land(s, origin, k, v, h, d);
      assert res.1.Updated? ==> IsLive(res.0[p]) && res.0[p].key == res.1.key;
    }
  }

  /**
   * What one probe does to the live pairs, with m the live pairs before plus
   * the inserted pair: the pairs afterwards are contained in m; when no key
   * occurs twice in m and the lap finished, they are exactly m; an
   * unfinished lap loses exactly one pair.
   */
  lemma ProbeRunPairs<K, V>(s: seq<Slot<K, V>>, origin: nat, k: K, v: V, h: nat)
    requires ProbeReady(s, origin, h, 0) && IsLiveHash(h)
    ensures var res := ProbeRun(s, origin, k, v, h, 0);
            var m := LiveOf(s) + multiset{(k, v)};
            && LiveOf(res.0) <= m
            && (KeysDistinct(m) && !res.1.Unfinished? ==> LiveOf(res.0) == m)
            && (res.1.Unfinished? ==> |LiveOf(res.0)| + 1 == |m|)
  {
    var res := ProbeRun(s, origin, k, v, h, 0);
    var m := LiveOf(s) + multiset{(k, v)};
    ProbeRunLive(s, origin, k, v, h, 0);
    ProbeRunUpdateLive(s, origin, k, v, h, 0);
    if res.1.Updated? {
      var i :| 0 <= i < |res.0| && IsLive(res.0[i]) && res.0[i].key == res.1.key;
      LiveOfHas(res.0, i);
      SameKeyTwice(m, LiveOf(res.0), (res.0[i].key, res.0[i].val), (res.1.key, res.1.oldVal));
    }
  }

  /** A bag holding a pair besides another pair with the same key does not have distinct keys. */
  lemma SameKeyTwice<K, V>(m: multiset<(K, V)>, n: multiset<(K, V)>, a: (K, V), b: (K, V))
    requires m == n + multiset{b} && a in n && KeyOf(a) == KeyOf(b)
    ensures !KeysDistinct(m)
  {
    assert SameKey(a, b);
    if a == b {
      assert m[a] >= 2;
    }
  }

  // --- empty slots and tombstones ---

  /** An unfinished probe passed only non-empty slots from offset d on. */
  lemma {:induction false} ProbeRunLapped<K, V>(s: seq<Slot<K, V>>, origin: nat, k: K, v: V, h: nat, d: nat)
    requires ProbeReady(s, origin, h, d) && IsLiveHash(h)
    ensures ProbeRun(s, origin, k, v, h, d).1.Unfinished? ==>
              forall j :: d <= j < |s| ==> !IsEmpty(s[At(origin, j, |s|)])
    decreases |s| - d
  {
    if d < |s| && !LandsAt(s, origin, k, h, d) {
      var c := Carry(s, origin, k, v, h, d);
      CarryStep(s, origin, k, v, h, d);
      ProbeRunLapped(c.0, origin, c.1, c.2, c.3, d + 1);
      if ProbeRun(s, origin, k, v, h, d).1.Unfinished? {
        forall j | d < j < |s|
          ensures !IsEmpty(s[At(origin, j, |s|)])
        {
          AtDistinct(origin, d, j, |s|);
        }
      }
    }
  }

  /** An insertion probe started at the origin can only fail to land when no slot is empty. */
  lemma ProbeRunFinishes<K, V>(s: seq<Slot<K, V>>, origin: nat, k: K, v: V, h: nat)
    requires ProbeReady(s, origin, h, 0) && IsLiveHash(h)
    ensures ProbeRun(s, origin, k, v, h, 0).1.Unfinished? ==> NonEmptyCount(s) == |s|
  {
    ProbeRunLapped(s, origin, k, v, h, 0);
    if ProbeRun(s, origin, k, v, h, 0).1.Unfinished? {
      forall i | 0 <= i < |s|
        ensures !IsEmpty(s[i])
      {
        AtOfProbeDist(origin, i, |s|);
      }
      NonEmptyCountBound(s);
    }
  }

  lemma CarryTombstones<K, V>(s: seq<Slot<K, V>>, origin: nat, k: K, v: V, h: nat, d: nat)
    requires ProbeReady(s, origin, h, d) && IsLiveHash(h) && d < |s| && !LandsAt(s, origin, k, h, d)
    ensures NoTombstones(s) <==> NoTombstones(Carry(s, origin, k, v, h, d).0)
  {
    var p := At(origin, d, |s|);
    var t := Carry(s, origin, k, v, h, d).0;
    if ProbeDist(origin, p, |s|) > ProbeDist(DesiredPos(s[p].hash), p, |s|) {
      assert !IsDeleted(s[p]) && !IsDeleted(t[p]);
      assert forall i :: 0 <= i < |s| && i != p ==> t[i] == s[i];
      if !NoTombstones(t) {
        var i :| 0 <= i < |t| && IsDeleted(t[i]);
      }
      if !NoTombstones(s) {
        var i :| 0 <= i < |s| && IsDeleted(s[i]);
      }
    }
  }

  /** The probe never creates a tombstone, and it reuses one only if one was there. */
  lemma {:induction false} ProbeRunTombstones<K, V>(s: seq<Slot<K, V>>, origin: nat, k: K, v: V, h: nat, d: nat)
    requires ProbeReady(s, origin, h, d) && IsLiveHash(h)
    ensures NoTombstones(s) ==> NoTombstones(ProbeRun(s, origin, k, v, h, d).0)
    ensures ProbeRun(s, origin, k, v, h, d).1 in {Revived, Placed(true)} ==> !NoTombstones(s)
    decreases |s| - d
  {
    if d < |s| && !LandsAt(s, origin, k, h, d) {
      var c := Carry(s, origin, k, v, h, d);
      CarryStep(s, origin, k, v, h, d);
      CarryTombstones(s, origin, k, v, h, d);
      ProbeRunTombstones(c.0, origin, c.1, c.2, c.3, d + 1);
    } else if d < |s| {
      var p := At(origin, d, |s|);
      if NoTombstones(s) {
        assert !IsDeleted(s[p]);
        assert !IsDeleted(Slot(k, v, h));
      }
    }
  }

  /**
   * Everything the table needs about one whole probe from the origin, for a
   * slot array holding at most the pairs `live0` (exactly those when their
   * keys are distinct): the slots stay well formed, the pairs afterwards
   * are within `live0` plus the new pair (exactly that when its keys are
   * distinct and the lap finished), and a table without tombstones that
   * still has an empty slot takes the pair and stays free of tombstones.
   */
  lemma ProbeRunSummary<K, V>(s: seq<Slot<K, V>>, origin: nat, k: K, v: V, h: nat, live0: multiset<(K, V)>)
    requires ProbeReady(s, origin, h, 0) && IsLiveHash(h)
    requires LiveOf(s) <= live0 && (KeysDistinct(live0) ==> LiveOf(s) == live0)
    ensures var res := ProbeRun(s, origin, k, v, h, 0);
            var m := live0 + multiset{(k, v)};
            && WellFormed(res.0) && |res.0| == |s|
            && LiveOf(res.0) <= m
            && (KeysDistinct(m) && !res.1.Unfinished? ==> LiveOf(res.0) == m)
            && (NoTombstones(s) && NonEmptyCount(s) < |s| ==>
                  && !res.1.Unfinished? && NoTombstones(res.0)
                  && NonEmptyCount(res.0) == NonEmptyCount(s) + (if res.1.Placed? then 1 else 0))
  {
    ProbeRunBag(s, origin, k, v, h, live0);
    ProbeRunRoom(s, origin, k, v, h);
  }

  /** The pairs part of `ProbeRunSummary`. */
  lemma ProbeRunBag<K, V>(s: seq<Slot<K, V>>, origin: nat, k: K, v: V, h: nat, live0: multiset<(K, V)>)
    requires ProbeReady(s, origin, h, 0) && IsLiveHash(h)
    requires LiveOf(s) <= live0 && (KeysDistinct(live0) ==> LiveOf(s) == live0)
    ensures var res := ProbeRun(s, origin, k, v, h, 0);
            var m := live0 + multiset{(k, v)};
            && LiveOf(res.0) <= m
            && (KeysDistinct(m) && !res.1.Unfinished? ==> LiveOf(res.0) == m)
  {
    var res := ProbeRun(s, origin, k, v, h, 0);
    ProbeRunPairs(s, origin, k, v, h);
    BagGrow(LiveOf(res.0), LiveOf(s), live0, (k, v));
    if KeysDistinct(live0 + multiset{(k, v)}) {
      KeysDistinctSub(live0 + multiset{(k, v)}, live0);
    }
  }

  /** The counting part of `ProbeRunSummary`. */
  lemma ProbeRunRoom<K, V>(s: seq<Slot<K, V>>, origin: nat, k: K, v: V, h: nat)
    requires ProbeReady(s, origin, h, 0) && IsLiveHash(h)
    ensures var res := ProbeRun(s, origin, k, v, h, 0);
            && WellFormed(res.0) && |res.0| == |s|
            && (NoTombstones(s) && NonEmptyCount(s) < |s| ==>
                  && !res.1.Unfinished? && NoTombstones(res.0)
                  && NonEmptyCount(res.0) == NonEmptyCount(s) + (if res.1.Placed? then 1 else 0))
  {
    ProbeRunCounts(s, origin, k, v, h, 0);
    ProbeRunTombstones(s, origin, k, v, h, 0);
    ProbeRunFinishes(s, origin, k, v, h);
  }

  /** A slot array with only empty slots holds nothing. */
  lemma {:induction false} AllEmpty<K, V>(s: seq<Slot<K, V>>)
    requires forall i :: 0 <= i < |s| ==> IsEmpty(s[i])
    ensures NonEmptyCount(s) == 0 && LiveOf(s) == multiset{} && NoTombstones(s)
    decreases |s|
  {
    if |s| > 0 {
      AllEmpty(s[..|s| - 1]);
    }
  }

  /**
   * One old slot re-inserted by `double_capacity`: if the new table held at
   * most the pairs of the first i old slots, after inserting slot i it holds
   * at most those of the first i + 1; with distinct keys, exactly those.
   */
  lemma ReinsertStep<K, V>(s0: seq<Slot<K, V>>, i: nat, x: Slot<K, V>, before: multiset<(K, V)>, after: multiset<(K, V)>)
    requires i < |s0| && x == s0[i]
    requires before <= LiveOf(s0[..i]) && (KeysDistinct(LiveOf(s0)) ==> before == LiveOf(s0[..i]))
    requires IsLive(x) ==> after <= before + multiset{(x.key, x.val)}
    requires IsLive(x) ==> (KeysDistinct(before + multiset{(x.key, x.val)}) ==> after == before + multiset{(x.key, x.val)})
    requires !IsLive(x) ==> after == before
    ensures after <= LiveOf(s0[..i + 1]) && (KeysDistinct(LiveOf(s0)) ==> after == LiveOf(s0[..i + 1]))
  {
    LiveOfPrefix(s0, i);
    LiveOfPrefixSub(s0, i + 1);
    if IsLive(x) && KeysDistinct(LiveOf(s0)) {
      KeysDistinctSub(LiveOf(s0), LiveOf(s0[..i + 1]));
    }
  }

  /**
   * The new slot array `a` of `double_capacity` after re-inserting the first
   * i old slots `s0`: at least twice as long, free of tombstones, `size`
   * counts its slots, and it holds at most the pairs of those old slots
   * (exactly those when the old keys are distinct).
   */
  ghost predicate Rebuilt<K, V>(s0: seq<Slot<K, V>>, i: nat, top: nat, a: seq<Slot<K, V>>, size: nat)
  {
    && i <= |s0| && 2 * |s0| <= |a| <= 20 * top && |LiveOf(s0)| <= top
    && NoTombstones(a) && NonEmptyCount(a) == size
    && LiveOf(a) <= LiveOf(s0[..i])
    && (KeysDistinct(LiveOf(s0)) ==> LiveOf(a) == LiveOf(s0[..i]))
  }

  /** The freshly allocated, all-empty array is rebuilt from no old slots. */
  lemma RebuildStart<K, V>(s0: seq<Slot<K, V>>, a: seq<Slot<K, V>>, top: nat)
    requires forall i :: 0 <= i < |a| ==> IsEmpty(a[i])
    requires |a| == 2 * |s0| && |s0| <= 10 * top && |LiveOf(s0)| <= top
    ensures Rebuilt(s0, 0, top, a, 0)
  {
    AllEmpty(a);
    assert s0[..0] == [];
  }

  /** Once every old slot is re-inserted, the new array holds at most the old pairs. */
  lemma RebuildEnd<K, V>(s0: seq<Slot<K, V>>, a: seq<Slot<K, V>>, size: nat, top: nat)
    requires Rebuilt(s0, |s0|, top, a, size)
    ensures NoTombstones(a) && NonEmptyCount(a) == size && 2 * |s0| <= |a| <= 20 * top
    ensures LiveOf(a) <= LiveOf(s0)
    ensures KeysDistinct(LiveOf(s0)) ==> LiveOf(a) == LiveOf(s0)
  {
    assert s0[..|s0|] == s0;
  }

  /** Growing a bag that is itself within a bigger one. */
  lemma BagGrow<T>(a: multiset<T>, b: multiset<T>, c: multiset<T>, x: T)
    requires a <= b + multiset{x} && b <= c
    ensures a <= c + multiset{x}
  {
  }

  /** Room for the next re-inserted pair: the new table holds fewer than `top` pairs. */
  lemma ReinsertRoom<K, V>(s0: seq<Slot<K, V>>, i: nat, before: multiset<(K, V)>, top: nat)
    requires i < |s0| && IsLive(s0[i]) && before <= LiveOf(s0[..i]) && |LiveOf(s0)| <= top
    ensures |before| < top
  {
    LiveOfPrefix(s0, i);
    LiveOfPrefixSub(s0, i + 1);
    SubCard(before, LiveOf(s0[..i]));
    SubCard(LiveOf(s0[..i + 1]), LiveOf(s0));
  }

  /** `delete_elem` at slot p: `mark_deleted` turns the slot into a tombstone, keeping key and value. */
  function Tombstone<K, V>(s: seq<Slot<K, V>>, p: nat): (t: seq<Slot<K, V>>)
    requires p < |s| && WellFormed(s)
    ensures |t| == |s| && WellFormed(t) && IsDeleted(t[p])
    ensures forall i :: 0 <= i < |s| && i != p ==> t[i] == s[i]
  {
    MarkDeletedFacts(s[p].hash);
    s[p := s[p].(hash := MarkDeleted(s[p].hash))]
  }

  /** A tombstone removes exactly the pair of the live slot it replaces. */
  lemma TombstoneLive<K, V>(s: seq<Slot<K, V>>, p: nat)
    requires p < |s| && WellFormed(s) && IsLive(s[p])
    ensures LiveOf(Tombstone(s, p)) + multiset{(s[p].key, s[p].val)} == LiveOf(s)
    ensures NonEmptyCount(Tombstone(s, p)) == NonEmptyCount(s)
  {
    var x := s[p].(hash := MarkDeleted(s[p].hash));
    MarkDeletedFacts(s[p].hash);
    LiveOfUpdate(s, p, x);
    NonEmptyCountUpdate(s, p, x);
  }

  /**
   * `find_elem` from offset d: the first non-deleted slot holding the key,
   * stopping at an empty slot, at a resident with a smaller probe distance
   * than d, or after one lap.
   */
  function FindScan<K(==), V>(s: seq<Slot<K, V>>, origin: nat, key: K, d: nat): (r: Option<nat>)
    requires origin < |s| && WellFormed(s) && d <= |s|
    ensures r.Some? ==> r.value < |s| && IsLive(s[r.value]) && s[r.value].key == key
    decreases |s| - d
  {
    if d == |s| then None
    else
      var p := At(origin, d, |s|);
      if IsEmpty(s[p]) then None
      else if s[p].key == key && !IsDeleted(s[p]) then Some(p)
      else if d > ProbeDist(DesiredPos(s[p].hash), p, |s|) then None
      else FindScan(s, origin, key, d + 1)
  }

  /** The slots from offset d up to (not including) e that `find_elem` passes over without stopping. */
  predicate PassesOver<K(==), V>(s: seq<Slot<K, V>>, origin: nat, key: K, d: nat, e: nat)
    requires origin < |s| && WellFormed(s) && e <= |s|
  {
    forall j :: d <= j < e ==>
      var p := At(origin, j, |s|);
      !IsEmpty(s[p]) && !(s[p].key == key && !IsDeleted(s[p]))
      && j <= ProbeDist(DesiredPos(s[p].hash), p, |s|)
  }

  /**
   * `find_elem` reports the slot at offset e exactly when that slot holds the
   * key live and every slot before it in the run is non-empty, does not hold
   * the key live, and is at least as far from its own desired slot.
   */
  lemma {:induction false} FindScanCharacterised<K, V>(s: seq<Slot<K, V>>, origin: nat, key: K, d: nat, e: nat)
    requires origin < |s| && WellFormed(s) && d <= e < |s|
    ensures FindScan(s, origin, key, d) == Some(At(origin, e, |s|))
        <==> (PassesOver(s, origin, key, d, e)
              && IsLive(s[At(origin, e, |s|)]) && s[At(origin, e, |s|)].key == key)
    decreases e - d
  {
    if d < e {
      FindScanCharacterised(s, origin, key, d + 1, e);
      AtDistinct(origin, d, e, |s|);
      if PassesOver(s, origin, key, d, e) {
        assert PassesOver(s, origin, key, d + 1, e);
      }
      var p := At(origin, d, |s|);
      if PassesOver(s, origin, key, d + 1, e) && !IsEmpty(s[p]) && !(s[p].key == key && !IsDeleted(s[p]))
         && d <= ProbeDist(DesiredPos(s[p].hash), p, |s|) {
        assert PassesOver(s, origin, key, d, e);
      }
    }
  }

  /** What `find_elem` reports is a pair stored under that key. */
  lemma FindScanIsLive<K, V>(s: seq<Slot<K, V>>, origin: nat, key: K)
    requires origin < |s| && WellFormed(s)
    ensures FindScan(s, origin, key, 0).Some? ==>
              (key, s[FindScan(s, origin, key, 0).value].val) in LiveOf(s)
  {
    if FindScan(s, origin, key, 0).Some? {
      LiveOfHas(s, FindScan(s, origin, key, 0).value);
    }
  }

  /** Probe distances of the live slots, summed over the first n slots (`avg_probe_dist`). */
  function DistSum<K, V>(s: seq<Slot<K, V>>, n: nat): nat
    requires WellFormed(s) && n <= |s|
  {
    if n == 0 then 0
    else DistSum(s, n - 1) + (if IsLive(s[n - 1]) then ProbeDist(DesiredPos(s[n - 1].hash), n - 1, |s|) else 0)
  }

  lemma {:induction false} DistSumBound<K, V>(s: seq<Slot<K, V>>, n: nat)
    requires WellFormed(s) && n <= |s|
    ensures DistSum(s, n) <= n * (|s| - 1)
  {
    if n > 0 {
      DistSumBound(s, n - 1);
      assert n * (|s| - 1) == (n - 1) * (|s| - 1) + (|s| - 1);
    }
  }

  lemma DivBelow(a: nat, b: nat, c: nat)
    requires b > 0 && a <= b * c
    ensures a / b <= c
  {
  }

  /** Unsigned integer division. */
  function Quotient(total: nat, n: nat): nat
    requires n > 0
  {
    total / n
  }

  /** The integer average probe distance of the live slots. */
  function AvgDist<K, V>(s: seq<Slot<K, V>>): (r: nat)
    requires WellFormed(s) && |s| > 0
    ensures r < |s|
  {
    DistSumBound(s, |s|);
    assert |s| * (|s| - 1) == (|s| - 1) * |s|;
    DivBelow(DistSum(s, |s|), |s|, |s| - 1);
    Quotient(DistSum(s, |s|), |s|)
  }

  /** `mark_deleted`-style decrement of the unsigned 32-bit `size`: 0 wraps to 2^32 - 1. */
  function Dec32(z: nat): (r: nat)
    ensures z > 0 ==> r + 1 == z
    ensures z == 0 ==> r == Uint32Range - 1
  {
    if z == 0 then Uint32Range - 1 else z - 1
  }

  // --- the size counter ---

  /** The change `insert_elem` makes to `size` as written: only `do_insert` increments it. */
  function SizeAfterInsert<K, V>(size: nat, r: InsertOutcome<K, V>): nat
  {
    size + (if r.Placed? then 1 else 0)
  }

  /** The evidently intended change: a revived tombstone holds a pair again, so it counts too. */
  function CountedSizeAfterInsert<K, V>(size: nat, r: InsertOutcome<K, V>): nat
  {
    size + (if r.Placed? || r.Revived? then 1 else 0)
  }

  /** As written, a revival leaves `size` one below the number of live pairs it should count. */
  lemma RevivalNotCounted<K, V>(s: seq<Slot<K, V>>, origin: nat, k: K, v: V, h: nat)
    requires ProbeReady(s, origin, h, 0) && IsLiveHash(h)
    ensures var res := ProbeRun(s, origin, k, v, h, 0);
            res.1.Revived? ==> SizeAfterInsert(|LiveOf(s)|, res.1) + 1 == |LiveOf(res.0)|
  {
    var res := ProbeRun(s, origin, k, v, h, 0);
    ProbeRunLive(s, origin, k, v, h, 0);
    assert |LiveOf(res.0) + Hand(res.1)| == |LiveOf(s)| + 1;
  }

  /** With revivals counted, a finished insertion keeps `size` equal to the number of live pairs. */
  lemma CountedSizeTracksLive<K, V>(s: seq<Slot<K, V>>, origin: nat, k: K, v: V, h: nat)
    requires ProbeReady(s, origin, h, 0) && IsLiveHash(h)
    ensures var res := ProbeRun(s, origin, k, v, h, 0);
            !res.1.Unfinished? ==> CountedSizeAfterInsert(|LiveOf(s)|, res.1) == |LiveOf(res.0)|
  {
    var res := ProbeRun(s, origin, k, v, h, 0);
    ProbeRunLive(s, origin, k, v, h, 0);
    assert |LiveOf(res.0) + Hand(res.1)| == |LiveOf(s)| + 1;
    assert |Hand(res.1)| == if res.1.Updated? || res.1.Unfinished? then 1 else 0;
  }

  /** A deletion removes one live pair, and the unsigned decrement of a count that is right stays right. */
  lemma TombstoneCount<K, V>(s: seq<Slot<K, V>>, p: nat)
    requires p < |s| && WellFormed(s) && IsLive(s[p])
    ensures Dec32(|LiveOf(s)|) == |LiveOf(Tombstone(s, p))|
  {
    TombstoneLive(s, p);
  }

  /**
   * The source's counter going wrong: on an empty table of 4 slots, insert
   * key 0, delete it, insert it again (a revival, not counted) and delete it
   * again; the table then holds no pair while `size` has wrapped to 2^32 - 1.
   */
  lemma SizeUnderflowExample()
    ensures var s0 := seq(4, _ => Slot(0, 0, 0));
            var h := HashOf(0, 4);
            var r1 := ProbeRun(s0, 0, 0, 7, h, 0);
            var s2 := Tombstone(r1.0, 0);
            var r3 := ProbeRun(s2, 0, 0, 7, h, 0);
            var s4 := Tombstone(r3.0, 0);
            && r1.1 == Placed(false) && FindScan(r1.0, 0, 0, 0) == Some(0)
            && r3.1 == Revived && FindScan(r3.0, 0, 0, 0) == Some(0)
            && Dec32(SizeAfterInsert(Dec32(SizeAfterInsert(0, r1.1)), r3.1)) == Uint32Range - 1
            && LiveOf(s4) == multiset{}
  {
    var s0: seq<Slot<int, int>> := seq(4, _ => Slot(0, 0, 0));
    var h := HashOf(0, 4);
    assert h == LiveBit;
    var s1 := s0[0 := Slot(0, 7, h)];
    assert ProbeRun(s0, 0, 0, 7, h, 0) == (s1, Placed(false));
    var s2 := Tombstone(s1, 0);
    assert LandsAt(s2, 0, 0, h, 0);
    assert s2[0 := Slot(0, 7, h)] == s1;
    assert ProbeRun(s2, 0, 0, 7, h, 0) == (s1, Revived);
    AllEmptyButOne(s2);
  }

  /**
   * The probe loop that never ends: on an empty table of 2 slots with load
   * factor 0.9, insert keys 0 and 2 (both want slot 0), then delete both;
   * `size` is back at 0, so inserting key 4 does not double the table.  Both
   * tombstones sit exactly as far from their origin as the carried key, so
   * neither is poorer: the lap finds no place, and the program's `for (;;)`
   * goes round for ever.
   */
  lemma EndlessProbeExample()
    ensures var s0 := seq(2, _ => Slot(0, 0, 0));
            var h0, h2, h4 := HashOf(0, 2), HashOf(2, 2), HashOf(4, 2);
            var r1 := ProbeRun(s0, 0, 0, 7, h0, 0);
            var r2 := ProbeRun(r1.0, 0, 2, 8, h2, 0);
            && DesiredPos(h0) == 0 && DesiredPos(h2) == 0 && DesiredPos(h4) == 0
            && r1.1 == Placed(false) && r2.1 == Placed(false) && WellFormed(r2.0)
            && Dec32(Dec32(SizeAfterInsert(SizeAfterInsert(0, r1.1), r2.1))) == 0
            && (var s3 := Tombstone(r2.0, 0);
                var s4 := Tombstone(s3, 1);
                && FindScan(r2.0, 0, 0, 0) == Some(0) && FindScan(s3, 0, 2, 0) == Some(1)
                && ProbeRun(s4, 0, 4, 9, h4, 0).1 == Unfinished(4, 9))
  {
    var s0: seq<Slot<int, int>> := seq(2, _ => Slot(0, 0, 0));
    var h := HashOf(0, 2);
    assert h == LiveBit && HashOf(2, 2) == h && HashOf(4, 2) == h;
    var s1 := s0[0 := Slot(0, 7, h)];
    assert ProbeRun(s0, 0, 0, 7, h, 0) == (s1, Placed(false));
    var s2 := s1[1 := Slot(2, 8, h)];
    assert !LandsAt(s1, 0, 2, h, 0);
    assert Carry(s1, 0, 2, 8, h, 0) == (s1, 2, 8, h);
    assert LandsAt(s1, 0, 2, h, 1);
    assert ProbeRun(s1, 0, 2, 8, h, 1) == (s2, Placed(false));
    assert ProbeRun(s1, 0, 2, 8, h, 0) == (s2, Placed(false));
    var s3 := Tombstone(s2, 0);
    var s4 := Tombstone(s3, 1);
    assert s4[0] == Slot(0, 7, h + DeletedBit) && s4[1] == Slot(2, 8, h + DeletedBit);
    assert !LandsAt(s4, 0, 4, h, 0);
    assert Carry(s4, 0, 4, 9, h, 0) == (s4, 4, 9, h);
    assert !LandsAt(s4, 0, 4, h, 1);
    assert Carry(s4, 0, 4, 9, h, 1) == (s4, 4, 9, h);
    assert ProbeRun(s4, 0, 4, 9, h, 1) == ProbeRun(s4, 0, 4, 9, h, 2) == (s4, Unfinished(4, 9));
    assert FindScan(s2, 0, 0, 0) == Some(0);
    assert FindScan(s3, 0, 2, 0) == Some(1);
  }

  /** Four slots of which the first is a tombstone and the rest are empty hold no pair. */
  lemma AllEmptyButOne<K, V>(s: seq<Slot<K, V>>)
    requires |s| == 4 && IsDeleted(s[0]) && IsEmpty(s[1]) && IsEmpty(s[2]) && IsEmpty(s[3])
    ensures LiveOf(s) == multiset{}
  {
    assert LiveOf(s[..3][..2][..1][..0]) == multiset{};
    assert LiveOf(s[..3][..2][..1]) == multiset{};
    assert LiveOf(s[..3][..2]) == multiset{};
    assert LiveOf(s[..3]) == multiset{};
  }

  /** `desired_pos(hash(key))` is `key mod capacity`, a slot of the table, and the hash word is live. */
  lemma OriginFacts(k: int, cap: nat)
    requires cap > 0
    ensures DesiredPos(HashOf(k, cap)) == (k % cap) % PosRange
    ensures IsLiveHash(HashOf(k, cap))
    ensures DesiredPos(HashOf(k, cap)) < cap
  {
    var r := (k % cap) % PosRange;
    ModOnce(r + PosRange, PosRange);
  }

  /** The load check compared with capacity and size. */
  lemma LoadBound(size: nat, cap: nat, num: nat, den: nat)
    requires LoadFactorOk(num, den)
    ensures size * den >= cap * num ==> cap <= 10 * size
    ensures size * den < cap * num ==> size < cap
  {
  }

  lemma DoublePow2(n: nat)
    requires IsPow2(n)
    ensures IsPow2(2 * n)
  {
    assert (2 * n) / 2 == n;
  }

  // ---------------------------------------------------------------------
  // The table
  // ---------------------------------------------------------------------

  class Table<K(==), V> {
    var arr: array<Slot<K, V>>
    var size: nat
    const lfNum: nat
    const lfDen: nat
    const keyNum: K -> int
    const blankKey: K
    const blankVal: V
    ghost var Repr: set<object>

    ghost predicate Valid()
      reads this, Repr
    {
      Repr == {this, arr}
      && IsPow2(arr.Length)
      && LoadFactorOk(lfNum, lfDen)
      && WellFormed(arr[..])
    }

    /** The doubling test `size >= capacity * load_factor`, with load_factor = lfNum / lfDen. */
    predicate NeedsDouble()
      reads this
    {
      size * lfDen >= arr.Length * lfNum
    }

    /**
     * `rhh(cap, load_factor, init_key, init_val)`: every slot starts as
     * (init_key, init_val, hash 0), that is empty, and size is 0.  `blankK`
     * and `blankV` are `K{}` and `V{}`, which `double_capacity` fills its new
     * array with.
     */
    constructor (cap: nat, num: nat, den: nat, initKey: K, initVal: V, blankK: K, blankV: V, kn: K -> int)
      requires IsPow2(cap) && LoadFactorOk(num, den)
      ensures Valid() && fresh(Repr)
      ensures arr.Length == cap && size == 0
      ensures forall i :: 0 <= i < cap ==> arr[i] == Slot(initKey, initVal, 0)
      ensures lfNum == num && lfDen == den && keyNum == kn && blankKey == blankK && blankVal == blankV
    {
      var init := Slot(initKey, initVal, 0);
      arr := new Slot<K, V>[cap](_ => init);
      size := 0;
      lfNum, lfDen := num, den;
      keyNum := kn;
      blankKey, blankVal := blankK, blankV;
      Repr := {this, arr};
    }

    /**
     * One pass of the `for (;;)` body of `insert_elem` at `pos`, the slot
     * `steps` places after `origin`, carrying (key, val, h).  Either the
     * carried item lands (`landed`) and `r` says how, or the pass swaps or
     * skips and (k, v, hc) is what is carried on.
     */
    method ProbeStep(origin: nat, steps: nat, pos: nat, key: K, val: V, h: nat)
      returns (landed: bool, r: InsertOutcome<K, V>, k: K, v: V, hc: nat)
      requires ProbeReady(arr[..], origin, h, steps) && steps < arr.Length
      requires pos == At(origin, steps, arr.Length)
      modifies arr, this`size
      ensures landed == LandsAt(old(arr[..]), origin, key, h, steps)
      ensures landed ==> (arr[..], r) == Land(old(arr[..]), origin, key, val, h, steps)
                         && size == old(size) + (if r.Placed? then 1 else 0)
      ensures !landed ==> (arr[..], k, v, hc) == Carry(old(arr[..]), origin, key, val, h, steps)
                          && size == old(size)
    {
      var cap := arr.Length;
      var s := arr[pos];
      k, v, hc, r := key, val, h, Unfinished(key, val);
      if IsEmpty(s) {
        arr[pos] := Slot(key, val, h);
        size := size + 1;
        return true, Placed(false), k, v, hc;
      }
      if s.key == key {
        if IsDeleted(s) {
          arr[pos] := Slot(s.key, val, h);
          return true, Revived, k, v, hc;
        }
        arr[pos] := s.(val := val);
        return true, Updated(key, s.val), k, v, hc;
      }
      var existing := ProbeDist(DesiredPos(s.hash), pos, cap);
      if ProbeDist(origin, pos, cap) > existing {
        if IsDeleted(s) {
          arr[pos] := Slot(key, val, h);
          size := size + 1;
          return true, Placed(true), k, v, hc;
        }
        arr[pos] := Slot(key, val, h);
        k, v, hc := s.key, s.val, s.hash;
      }
      landed := false;
    }

    /** The probe loop of `insert_elem`, after the load check. */
    method ProbeInsert(key: K, val: V) returns (r: InsertOutcome<K, V>)
      requires Valid()
      modifies arr, this`size
      ensures Valid() && arr == old(arr)
      ensures (arr[..], r) == ProbeRun(old(arr[..]), DesiredPos(HashOf(keyNum(key), arr.Length)), key, val, HashOf(keyNum(key), arr.Length), 0)
      ensures size == old(size) + (if r.Placed? then 1 else 0)
    {
      var cap := arr.Length;
      OriginFacts(keyNum(key), arr.Length);
      var h0 := HashOf(keyNum(key), cap);
      var origin := DesiredPos(h0);
      ghost var target := ProbeRun(arr[..], origin, key, val, h0, 0);
      var k, v, h := key, val, h0;
      var pos := origin;
      var steps := 0;
      while steps < cap
        invariant steps <= cap && pos == At(origin, steps, cap) && size == old(size)
        invariant ProbeReady(arr[..], origin, h, steps) && IsLiveHash(h)
        invariant ProbeRun(arr[..], origin, k, v, h, steps) == target
        decreases cap - steps
      {
        ghost var cur := arr[..];
        var landed, out, k', v', h' := ProbeStep(origin, steps, pos, k, v, h);
        if landed {
          ProbeRunLands(cur, origin, k, v, h, steps);
          return out;
        }
        CarryStep(cur, origin, k, v, h, steps);
        k, v, h := k', v', h';
        AtNext(origin, steps, cap);
        pos := (pos + 1) % cap;
        steps := steps + 1;
      }
      return Unfinished(k, v);
    }

    /**
     * `insert_elem`: double first when `size >= capacity * load_factor`, then
     * probe.  The ghost `top` bounds the number of pairs the nested
     * re-insertions of `double_capacity` can bring, which bounds how often
     * the capacity can double.
     */
    method InsertWithin(key: K, val: V, ghost top: nat) returns (r: InsertOutcome<K, V>)
      requires Valid() && size < top && |LiveOf(arr[..])| < top && arr.Length <= 20 * top
      modifies this, arr
      ensures Valid() && arr.Length <= 20 * top && (arr == old(arr) || fresh(arr))
      ensures !old(NeedsDouble()) ==>
                && arr == old(arr)
                && (arr[..], r) == ProbeRun(old(arr[..]), DesiredPos(HashOf(keyNum(key), arr.Length)), key, val, HashOf(keyNum(key), arr.Length), 0)
                && size == old(size) + (if r.Placed? then 1 else 0)
      ensures old(NeedsDouble()) ==>
                && fresh(arr) && arr.Length >= 2 * old(arr.Length)
                && !r.Unfinished? && NoTombstones(arr[..]) && NonEmptyCount(arr[..]) == size
      ensures NoTombstones(old(arr[..])) && NonEmptyCount(old(arr[..])) == old(size) ==>
                !r.Unfinished? && NoTombstones(arr[..]) && NonEmptyCount(arr[..]) == size
      ensures LiveOf(arr[..]) <= old(LiveOf(arr[..])) + multiset{(key, val)}
      ensures KeysDistinct(old(LiveOf(arr[..])) + multiset{(key, val)}) && !r.Unfinished? ==>
                LiveOf(arr[..]) == old(LiveOf(arr[..])) + multiset{(key, val)}
      decreases 20 * top - arr.Length, 3
    {
      ghost var live0 := LiveOf(arr[..]);
      GrowIfFull(top);
      OriginFacts(keyNum(key), arr.Length);
      ProbeRunSummary(arr[..], DesiredPos(HashOf(keyNum(key), arr.Length)), key, val, HashOf(keyNum(key), arr.Length), live0);
      r := ProbeInsert(key, val);
    }

    /**
     * The load check at the top of `insert_elem`: `double_capacity` when
     * `size >= capacity * load_factor`.  Afterwards a table without
     * tombstones whose size counts its slots has an empty slot left.
     */
    method GrowIfFull(ghost top: nat)
      requires Valid() && size < top && |LiveOf(arr[..])| < top && arr.Length <= 20 * top
      modifies this
      ensures Valid() && arr.Length <= 20 * top && (arr == old(arr) || fresh(arr))
      ensures !old(NeedsDouble()) ==> arr == old(arr) && size == old(size) && size < arr.Length
      ensures old(NeedsDouble()) ==>
                && fresh(arr) && arr.Length >= 2 * old(arr.Length)
                && NoTombstones(arr[..]) && NonEmptyCount(arr[..]) == size < arr.Length
      ensures LiveOf(arr[..]) <= old(LiveOf(arr[..]))
      ensures KeysDistinct(old(LiveOf(arr[..]))) ==> LiveOf(arr[..]) == old(LiveOf(arr[..]))
      decreases 20 * top - arr.Length, 2
    {
      LoadBound(size, arr.Length, lfNum, lfDen);
      if NeedsDouble() {
        ghost var live0 := LiveOf(arr[..]);
        LiveCountBound(arr[..]);
        DoubleCapacity(top);
        LiveCountBound(arr[..]);
        SubCard(LiveOf(arr[..]), live0);
      }
    }

    /**
     * `double_capacity`: a new array of twice the capacity filled with
     * `rhh_elem()` slots, size 0, then `insert_elem` of every live old slot
     * in slot order.
     */
    method DoubleCapacity(ghost top: nat)
      requires Valid() && |LiveOf(arr[..])| <= top && arr.Length <= 10 * top
      modifies this
      ensures Valid() && fresh(arr) && 2 * old(arr.Length) <= arr.Length <= 20 * top
      ensures NoTombstones(arr[..]) && NonEmptyCount(arr[..]) == size
      ensures LiveOf(arr[..]) <= old(LiveOf(arr[..]))
      ensures KeysDistinct(old(LiveOf(arr[..]))) ==> LiveOf(arr[..]) == old(LiveOf(arr[..]))
      decreases 20 * top - arr.Length, 1
    {
      var oldArr := arr;
      ghost var s0 := arr[..];
      var blank := Slot(blankKey, blankVal, 0);
      DoublePow2(oldArr.Length);
      arr := new Slot<K, V>[2 * oldArr.Length](_ => blank);
      Repr := {this, arr};
      size := 0;
      RebuildStart(s0, arr[..], top);
      var i := 0;
      while i < oldArr.Length
        invariant 0 <= i <= oldArr.Length && oldArr[..] == s0 && fresh(arr)
        invariant Rebuilding(s0, i, top)
        decreases oldArr.Length - i
      {
        Reinsert(oldArr, i, s0, top);
        i := i + 1;
      }
      RebuildEnd(s0, arr[..], size, top);
    }

    /**
     * What `double_capacity` keeps while it re-inserts the old slots: the
     * new table is valid and its slots are as `Rebuilt` describes.
     */
    ghost predicate Rebuilding(s0: seq<Slot<K, V>>, i: nat, top: nat)
      reads this, Repr
    {
      Valid() && Rebuilt(s0, i, top, arr[..], size)
    }

    /** One iteration of the loop of `double_capacity`: `insert_elem` of old slot i if it is live. */
    method Reinsert(oldArr: array<Slot<K, V>>, i: nat, ghost s0: seq<Slot<K, V>>, ghost top: nat)
      requires i < oldArr.Length && oldArr[..] == s0 && oldArr != arr
      requires Rebuilding(s0, i, top)
      modifies this, arr
      ensures Rebuilding(s0, i + 1, top) && (arr == old(arr) || fresh(arr))
      decreases 20 * top - oldArr.Length, 0
    {
      ghost var before := LiveOf(arr[..]);
      var x := oldArr[i];
      if !IsEmpty(x) && !IsDeleted(x) {
        LiveCountBound(arr[..]);
        ReinsertRoom(s0, i, before, top);
        var _ := InsertWithin(x.key, x.val, top);
      }
      ReinsertStep(s0, i, x, before, LiveOf(arr[..]));
    }

    /** The public `insert_elem`. */
    method InsertElem(key: K, val: V) returns (r: InsertOutcome<K, V>)
      requires Valid()
      modifies this, arr
      ensures Valid() && (arr == old(arr) || fresh(arr))
      ensures !old(NeedsDouble()) ==>
                && arr == old(arr)
                && (arr[..], r) == ProbeRun(old(arr[..]), DesiredPos(HashOf(keyNum(key), arr.Length)), key, val, HashOf(keyNum(key), arr.Length), 0)
                && size == old(size) + (if r.Placed? then 1 else 0)
      ensures old(NeedsDouble()) ==>
                && fresh(arr) && arr.Length >= 2 * old(arr.Length)
                && !r.Unfinished? && NoTombstones(arr[..]) && NonEmptyCount(arr[..]) == size
      ensures NoTombstones(old(arr[..])) && NonEmptyCount(old(arr[..])) == old(size) ==>
                !r.Unfinished? && NoTombstones(arr[..]) && NonEmptyCount(arr[..]) == size
      ensures LiveOf(arr[..]) <= old(LiveOf(arr[..])) + multiset{(key, val)}
      ensures KeysDistinct(old(LiveOf(arr[..])) + multiset{(key, val)}) && !r.Unfinished? ==>
                LiveOf(arr[..]) == old(LiveOf(arr[..])) + multiset{(key, val)}
    {
      LiveCountBound(arr[..]);
      r := InsertWithin(key, val, size + arr.Length + 1);
    }

    /**
     * `find_elem`: the probe run from `desired_pos(hash(key))`, one slot per
     * offset d, stopping at an empty slot or at a resident closer to its own
     * desired slot than d; it succeeds at the first live slot with the key.
     */
    method FindElem(key: K) returns (found: bool, pos: nat)
      requires Valid()
      ensures found == FindScan(arr[..], DesiredPos(HashOf(keyNum(key), arr.Length)), key, 0).Some?
      ensures found ==> pos == FindScan(arr[..], DesiredPos(HashOf(keyNum(key), arr.Length)), key, 0).value
    {
      var cap := arr.Length;
      OriginFacts(keyNum(key), cap);
      var origin := DesiredPos(HashOf(keyNum(key), cap));
      pos := origin;
      var d := 0;
      while d < cap
        invariant d <= cap
        invariant FindScan(arr[..], origin, key, d) == FindScan(arr[..], origin, key, 0)
        decreases cap - d
      {
        AtIsSourceFormula(origin, d, cap);
        pos := (origin + d) % cap;
        if IsEmpty(arr[pos]) {
          break;
        } else if arr[pos].key == key && !IsDeleted(arr[pos]) {
          return true, pos;
        } else if d > ProbeDist(DesiredPos(arr[pos].hash), pos, cap) {
          break;
        }
        d := d + 1;
      }
      return false, pos;
    }

    /**
     * `get_elem`: on success the value of the slot `find_elem` found, which
     * is a live pair under that key; otherwise `val` keeps what the caller
     * passed in.  The table is not changed.
     */
    method GetElem(key: K, val0: V) returns (found: bool, val: V)
      requires Valid()
      ensures found == FindScan(arr[..], DesiredPos(HashOf(keyNum(key), arr.Length)), key, 0).Some?
      ensures found ==> val == arr[FindScan(arr[..], DesiredPos(HashOf(keyNum(key), arr.Length)), key, 0).value].val
      ensures found ==> (key, val) in LiveOf(arr[..])
      ensures !found ==> val == val0
    {
      var i;
      found, i := FindElem(key);
      val := val0;
      if found {
        val := arr[i].val;
        LiveOfHas(arr[..], i);
      }
    }

    /**
     * `delete_elem`: when `find_elem` succeeds, that slot becomes a
     * tombstone (its pair leaves the table) and the unsigned `size` is
     * decremented; otherwise nothing changes.
     */
    method DeleteElem(key: K) returns (found: bool)
      requires Valid()
      modifies arr, this`size
      ensures Valid() && arr == old(arr)
      ensures found == FindScan(old(arr[..]), DesiredPos(HashOf(keyNum(key), arr.Length)), key, 0).Some?
      ensures found ==>
                && arr[..] == Tombstone(old(arr[..]), FindScan(old(arr[..]), DesiredPos(HashOf(keyNum(key), arr.Length)), key, 0).value)
                && size == Dec32(old(size))
      ensures !found ==> arr[..] == old(arr[..]) && size == old(size)
    {
      var i;
      found, i := FindElem(key);
      if found {
        ghost var s := arr[..];
        arr[i] := arr[i].(hash := MarkDeleted(arr[i].hash));
        size := Dec32(size);
        assert arr[..] == Tombstone(s, i);
      }
    }

    /** `avg_probe_dist`: the probe distances of the live slots, summed, divided by the capacity. */
    method AvgProbeDist() returns (r: nat)
      requires Valid()
      ensures r == AvgDist(arr[..]) && r < arr.Length
    {
      var cap := arr.Length;
      ghost var s := arr[..];
      var sum: nat := 0;
      var pos := 0;
      while pos < cap
        invariant pos <= cap && sum == DistSum(s, pos)
        decreases cap - pos
      {
        var x := arr[pos];
        assert x == s[pos];
        if !IsEmpty(x) && !IsDeleted(x) {
          sum := sum + ProbeDist(DesiredPos(x.hash), pos, cap);
        }
        pos := pos + 1;
      }
      r := Quotient(sum, cap);
    }
  }
}
