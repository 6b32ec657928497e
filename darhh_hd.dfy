/**
 * The high-degree store `hd_rhh<T>` of the degree-aware container: a map
 * from each source vertex to its own Robin-Hood table ("edge chunk")
 * `rhh<NodeID, T>`, keyed by destination, created on the vertex's first
 * edge with capacity `ec_cap` and load factor `load_factor`.
 *
 * The hash map `v_table` is a Dafny map from vertex to chunk; the chunks
 * are distinct objects, each owning its slot array.  A chunk's key is a
 * vertex id, which `key % capacity` reduces directly (`keyNum` is the
 * identity).
 */
module HighDegree {
  import opened Types
  import R = RobinHood

  type Chunk = R.Table<int, NodeWeight>

  /** The default chunk capacity `ec_cap = 2^5`. */
  const DefaultChunkCap: nat := 32

  lemma DefaultChunkCapIsPow2()
    ensures R.IsPow2(DefaultChunkCap)
  {
    assert R.IsPow2(1);
    assert R.IsPow2(2);
    assert R.IsPow2(4);
    assert R.IsPow2(8);
    assert R.IsPow2(16);
  }

  /** A chunk as `hd_rhh` makes it: valid and keyed by the vertex id itself. */
  ghost predicate IsChunk(c: Chunk)
    reads c, c.Repr
  {
    c.Valid() && forall x :: c.keyNum(x) == x
  }

  /** Nothing was deleted from a chunk, so its `size` counts its occupied slots. */
  ghost predicate Counting(c: Chunk)
    reads c, c.arr
  {
    R.NoTombstones(c.arr[..]) && R.NonEmptyCount(c.arr[..]) == c.size
  }

  /**
   * Chunk c belongs to vertex v: it lies inside the footprint `repr`, and
   * `owner` assigns the chunk object and its slot array to v.
   */
  ghost predicate Owned(c: Chunk, v: int, owner: map<object, int>, repr: set<object>)
    reads c
  {
    c in repr && c.Repr <= repr && c in owner && owner[c] == v && c.arr in owner && owner[c.arr] == v
  }

  /** The pairs map pm records for vertex v: none when v has no entry. */
  ghost function PairsIn(pm: map<int, multiset<(int, NodeWeight)>>, v: int): multiset<(int, NodeWeight)>
  {
    if v in pm then pm[v] else multiset{}
  }

  /** The live pairs of a chunk's slots (`R.LiveOf`, through `LiveFrom`). */
  ghost function Live(s: seq<R.Slot<int, NodeWeight>>): multiset<(int, NodeWeight)>
  {
    LiveFrom(s, 1)
  }

  /**
   * `R.LiveOf` counted down from k: the count keeps the definition folded
   * where a proof reasons about a chunk's pairs as a whole, and `LiveIs`
   * unfolds it where a proof needs the slots.
   */
  ghost function LiveFrom(s: seq<R.Slot<int, NodeWeight>>, k: nat): multiset<(int, NodeWeight)>
  {
    if k == 0 then R.LiveOf(s) else LiveFrom(s, k - 1)
  }

  /** `Live` is the live pairs of the slots. */
  lemma LiveIs(s: seq<R.Slot<int, NodeWeight>>)
    ensures Live(s) == R.LiveOf(s)
  {
    assert LiveFrom(s, 0) == R.LiveOf(s);
  }

  /** The chunk's own `insert_elem`, stated on what the store keeps track of. */
  method ChunkInsert(c: Chunk, key: int, val: NodeWeight) returns (r: R.InsertOutcome<int, NodeWeight>)
    requires IsChunk(c)
    modifies c, c.arr
    ensures IsChunk(c) && (c.arr == old(c.arr) || fresh(c.arr))
    ensures !old(c.NeedsDouble()) ==> c.arr == old(c.arr)
    ensures Live(c.arr[..]) <= old(Live(c.arr[..])) + multiset{(key, val)}
    ensures R.KeysDistinct(old(Live(c.arr[..])) + multiset{(key, val)}) && !r.Unfinished? ==>
              Live(c.arr[..]) == old(Live(c.arr[..])) + multiset{(key, val)}
    ensures old(Counting(c)) ==> !r.Unfinished? && Counting(c)
  {
    LiveIs(c.arr[..]);
    r := c.InsertElem(key, val);
    LiveIs(c.arr[..]);
  }

  /** The slot the chunk's `find_elem` finds for `key`, if any. */
  ghost function ChunkHit(c: Chunk, key: int): (p: Option<nat>)
    reads c, c.Repr
    requires IsChunk(c)
    ensures p.Some? ==> p.value < c.arr.Length && R.IsLive(c.arr[p.value])
  {
    R.OriginFacts(key, c.arr.Length);
    R.FindScan(c.arr[..], R.DesiredPos(R.HashOf(key, c.arr.Length)), key, 0)
  }

  /** The chunk's own `delete_elem`: the slot it finds becomes a tombstone, removing exactly its pair. */
  method ChunkDelete(c: Chunk, key: int) returns (found: bool)
    requires IsChunk(c)
    modifies c`size, c.arr
    ensures IsChunk(c) && c.arr == old(c.arr)
    ensures found == old(ChunkHit(c, key)).Some?
    ensures found ==> Live(c.arr[..]) + multiset{old((c.arr[ChunkHit(c, key).value].key, c.arr[ChunkHit(c, key).value].val))}
                      == old(Live(c.arr[..]))
    ensures !found ==> c.arr[..] == old(c.arr[..])
  {
    ghost var s := c.arr[..];
    LiveIs(s);
    ghost var hit := ChunkHit(c, key);
    found := c.DeleteElem(key);
    if found {
      R.TombstoneLive(s, hit.value);
      LiveIs(c.arr[..]);
    }
  }

  class Store {
    var chunks: map<int, Chunk>
    const ecCap: nat
    const lfNum: nat
    const lfDen: nat
    ghost var Repr: set<object>
    /** Which vertex each chunk object and slot array belongs to; keeps the chunks apart. */
    ghost var owner: map<object, int>

    /** The chunk of v is a valid chunk, inside this store's footprint, owned by v alone. */
    ghost predicate ChunkOk(v: int)
      reads this, Repr
      requires v in chunks
    {
      chunks[v] in Repr && Owned(chunks[v], v, owner, Repr) && IsChunk(chunks[v])
    }

    ghost predicate Valid()
      reads this, Repr
    {
      && this in Repr
      && R.IsPow2(ecCap) && R.LoadFactorOk(lfNum, lfDen)
      && (forall v :: v in chunks ==> ChunkOk(v))
    }

    /** The live (destination, neighbour) pairs stored for vertex v. */
    ghost function Pairs(v: int): multiset<(int, NodeWeight)>
      reads this`chunks, if v in chunks then {chunks[v], chunks[v].arr} else {}
    {
      PairsFrom(v, 1)
    }

    /** `Pairs` counted down from k, folded the way `LiveFrom` is; `PairsIs` unfolds it. */
    ghost function PairsFrom(v: int, k: nat): multiset<(int, NodeWeight)>
      reads this`chunks, if v in chunks then {chunks[v], chunks[v].arr} else {}
    {
      if k > 0 then PairsFrom(v, k - 1)
      else if v in chunks then Live(chunks[v].arr[..]) else multiset{}
    }

    /** A vertex's pairs are the live pairs of its chunk, and none without one. */
    lemma PairsIs(v: int)
      ensures Pairs(v) == if v in chunks then Live(chunks[v].arr[..]) else multiset{}
    {
      assert PairsFrom(v, 0) == if v in chunks then Live(chunks[v].arr[..]) else multiset{};
    }

    /** `PairsIs` in the earlier state and the current one. */
    twostate lemma PairsWere(v: int)
      ensures old(Pairs(v)) == old(if v in chunks then Live(chunks[v].arr[..]) else multiset{})
      ensures Pairs(v) == if v in chunks then Live(chunks[v].arr[..]) else multiset{}
    {
      assert old(PairsFrom(v, 0)) == old(if v in chunks then Live(chunks[v].arr[..]) else multiset{});
      PairsIs(v);
    }

    /** A vertex without a chunk has no pairs. */
    lemma NoChunkNoPairs()
      ensures forall v {:trigger Pairs(v)} :: v !in chunks ==> Pairs(v) == multiset{}
    {
      forall v | v !in chunks
        ensures Pairs(v) == multiset{}
      {
        PairsIs(v);
      }
    }

    /** The live pairs of every vertex that has a chunk. */
    ghost function PairsMap(): (pm: map<int, multiset<(int, NodeWeight)>>)
      reads this, Repr
      requires Valid()
      ensures pm.Keys == chunks.Keys
      ensures forall v {:trigger PairsIn(pm, v)} :: PairsIn(pm, v) == Pairs(v)
    {
      NoChunkNoPairs();
      map v | v in chunks :: Pairs(v)
    }

    /** Since the old state, every vertex but v has kept its chunk object, untouched. */
    twostate predicate KeptBut(v: int)
      requires Valid()
      reads this, Repr
    {
      forall u :: u in old(chunks) && u != v ==>
        u in chunks && chunks[u] == old(chunks[u]) && unchanged(chunks[u]) && unchanged(chunks[u].arr)
    }

    /** A vertex whose chunk a step left alone, or that still has none, keeps its pairs. */
    twostate lemma PairsKept(v: int)
      requires v in old(chunks) ==> v in chunks && chunks[v] == old(chunks[v]) && unchanged(chunks[v]) && unchanged(chunks[v].arr)
      requires v !in old(chunks) ==> v !in chunks
      ensures Pairs(v) == old(Pairs(v))
    {
      PairsWere(v);
      if v in chunks {
        assert chunks[v].arr[..] == old(chunks[v].arr[..]);
      }
    }

    /** A step that kept every chunk but v's, and created at most v's, changed the pairs of v alone. */
    twostate lemma PairsStep(v: int)
      requires old(Valid()) && Valid() && KeptBut(v) && chunks.Keys <= old(chunks.Keys) + {v}
      ensures forall u {:trigger Pairs(u)} :: u != v ==> Pairs(u) == old(Pairs(u))
    {
      forall u | u != v
        ensures Pairs(u) == old(Pairs(u))
      {
        PairsKept(u);
      }
    }

    /** `hd_rhh(ec_cap, ec_load_factor)`: no vertex has a chunk yet. */
    constructor (cap: nat, num: nat, den: nat)
      requires R.IsPow2(cap) && R.LoadFactorOk(num, den)
      ensures Valid() && fresh(Repr)
      ensures chunks == map[] && ecCap == cap && lfNum == num && lfDen == den
    {
      chunks := map[];
      ecCap, lfNum, lfDen := cap, num, den;
      Repr := {this};
      owner := map[];
    }

    /** `hd_rhh()`: chunks of 2^5 slots with load factor 0.9. */
    constructor Default()
      ensures Valid() && fresh(Repr)
      ensures chunks == map[] && ecCap == DefaultChunkCap && lfNum == 9 && lfDen == 10
    {
      DefaultChunkCapIsPow2();
      chunks := map[];
      ecCap, lfNum, lfDen := DefaultChunkCap, 9, 10;
      Repr := {this};
      owner := map[];
    }

    /** `get_degree(id)`: 0 without a chunk, otherwise the chunk's `size`. */
    function Degree(v: int): (d: nat)
      reads this`chunks, if v in chunks then {chunks[v]} else {}
      ensures v !in chunks ==> d == 0
    {
      if v in chunks then chunks[v].size else 0
    }

    /** While nothing was deleted from it, a vertex's degree is the number of its live pairs. */
    lemma DegreeCountsPairs(v: int)
      requires Valid() && v in chunks && Counting(chunks[v])
      ensures Degree(v) == |Pairs(v)|
    {
      assert ChunkOk(v);
      PairsIs(v);
      LiveIs(chunks[v].arr[..]);
      R.LiveCountBound(chunks[v].arr[..]);
    }

    /**
     * The bookkeeping after the chunk of v was created or changed: its
     * (possibly new) slot array joins the footprint and is owned by v.
     */
    ghost method Adopt(v: int)
      requires this in Repr && R.IsPow2(ecCap) && R.LoadFactorOk(lfNum, lfDen) && v in chunks
      requires chunks[v] in Repr && chunks[v] in owner && owner[chunks[v]] == v && IsChunk(chunks[v])
      requires chunks[v].arr !in owner || owner[chunks[v].arr] == v
      requires forall u :: u in chunks && u != v ==> ChunkOk(u)
      modifies this`Repr, this`owner
      ensures Valid() && Repr == old(Repr) + chunks[v].Repr
    {
      var c := chunks[v];
      Repr := Repr + c.Repr;
      owner := owner[c.arr := v];
      forall u | u in chunks && u != v
        ensures ChunkOk(u)
      {
        assert old(ChunkOk(u));
      }
      assert ChunkOk(v);
    }

    /**
     * A fresh chunk for a vertex that has none: `rhh(ec_cap, load_factor)`,
     * every slot (0, T{}, 0).
     */
    method NewChunk(v: int) returns (c: Chunk)
      requires Valid() && v !in chunks
      modifies this
      ensures Valid() && Repr == old(Repr) + c.Repr && fresh(c.Repr)
      ensures chunks == old(chunks)[v := c] && c.size == 0 && Counting(c) && Pairs(v) == multiset{}
      ensures c.arr.Length == ecCap && c.lfNum == lfNum && c.lfDen == lfDen
    {
      c := new R.Table<int, NodeWeight>(ecCap, lfNum, lfDen, 0, DefaultNodeWeight, 0, DefaultNodeWeight, x => x);
      R.AllEmpty(c.arr[..]);
      LiveIs(c.arr[..]);
      chunks := chunks[v := c];
      owner := owner[c := v];
      Repr := Repr + {c};
      forall u | u in chunks && u != v
        ensures ChunkOk(u)
      {
        assert old(ChunkOk(u));
      }
      Adopt(v);
      PairsIs(v);
    }

    /**
     * The chunk's `insert_elem(key, val)` on the existing chunk of v; no
     * other vertex's chunk changes.
     */
    method Upsert(v: int, key: int, val: NodeWeight) returns (r: R.InsertOutcome<int, NodeWeight>)
      requires Valid() && v in chunks
      modifies Repr
      ensures Valid() && fresh(Repr - old(Repr)) && chunks == old(chunks)
      ensures forall u :: u in chunks && u != v ==> unchanged(chunks[u]) && unchanged(chunks[u].arr)
      ensures !old(chunks[v].NeedsDouble()) ==> chunks[v].arr == old(chunks[v].arr)
      ensures Pairs(v) <= old(Pairs(v)) + multiset{(key, val)}
      ensures R.KeysDistinct(old(Pairs(v)) + multiset{(key, val)}) && !r.Unfinished? ==>
                Pairs(v) == old(Pairs(v)) + multiset{(key, val)}
      ensures old(Counting(chunks[v])) ==> !r.Unfinished? && Counting(chunks[v])
    {
      var c := chunks[v];
      assert ChunkOk(v);
      ghost var a0 := c.arr;
      r := ChunkInsert(c, key, val);
      forall u | u in chunks && u != v
        ensures unchanged(chunks[u]) && unchanged(chunks[u].arr) && ChunkOk(u)
      {
        assert old(ChunkOk(u));
        assert chunks[u] != c && chunks[u].arr != a0;
      }
      Adopt(v);
      PairsWere(v);
    }

    /**
     * `insert_elem(id, w)`: upsert destination `id.second` with its record
     * in the chunk of `id.first`, creating that chunk first when missing.
     * No other vertex's chunk changes.
     */
    method InsertElem(id: EdgeId, w: int, weighted: bool) returns (r: R.InsertOutcome<int, NodeWeight>)
      requires Valid()
      modifies Repr
      ensures Valid() && fresh(Repr - old(Repr))
      ensures chunks.Keys == old(chunks.Keys) + {id.first}
      ensures KeptBut(id.first)
      ensures forall u {:trigger Pairs(u)} :: u != id.first ==> Pairs(u) == old(Pairs(u))
      ensures id.first !in old(chunks) ==>
                Pairs(id.first) == multiset{(id.second, Info(weighted, id.second, w))} && Degree(id.first) == 1
      ensures Pairs(id.first) <= old(Pairs(id.first)) + multiset{(id.second, Info(weighted, id.second, w))}
      ensures R.KeysDistinct(old(Pairs(id.first)) + multiset{(id.second, Info(weighted, id.second, w))}) && !r.Unfinished? ==>
                Pairs(id.first) == old(Pairs(id.first)) + multiset{(id.second, Info(weighted, id.second, w))}
      ensures id.first in old(chunks) && old(Counting(chunks[id.first])) ==> !r.Unfinished? && Counting(chunks[id.first])
      ensures id.first !in old(chunks) ==> !r.Unfinished? && Counting(chunks[id.first])
      ensures id.first !in old(chunks) ==>
                var c := chunks[id.first];
                fresh(c) && c.arr.Length == ecCap && c.lfNum == lfNum && c.lfDen == lfDen
      ensures id.first in old(chunks) ==> chunks[id.first] == old(chunks[id.first])
    {
      var node := Info(weighted, id.second, w);
      var v := id.first;
      if v !in chunks {
        PairsIs(v);
        var c := NewChunk(v);
        assert !c.NeedsDouble();
        r := Upsert(v, id.second, node);
        assert R.KeysDistinct(multiset{} + multiset{(id.second, node)});
        DegreeCountsPairs(v);
      } else {
        r := Upsert(v, id.second, node);
      }
      PairsStep(v);
    }

    /** The edge form `insert_elem(edge)`: key (source, destination) with the edge's weight. */
    method InsertEdge(e: Edge, weighted: bool) returns (r: R.InsertOutcome<int, NodeWeight>)
      requires Valid()
      modifies Repr
      ensures Valid() && fresh(Repr - old(Repr))
      ensures chunks.Keys == old(chunks.Keys) + {e.source}
      ensures KeptBut(e.source)
      ensures forall u {:trigger Pairs(u)} :: u != e.source ==> Pairs(u) == old(Pairs(u))
      ensures e.source !in old(chunks) ==>
                Pairs(e.source) == multiset{(e.destination, Info(weighted, e.destination, e.weight))} && Degree(e.source) == 1
      ensures Pairs(e.source) <= old(Pairs(e.source)) + multiset{(e.destination, Info(weighted, e.destination, e.weight))}
      ensures R.KeysDistinct(old(Pairs(e.source)) + multiset{(e.destination, Info(weighted, e.destination, e.weight))}) && !r.Unfinished? ==>
                Pairs(e.source) == old(Pairs(e.source)) + multiset{(e.destination, Info(weighted, e.destination, e.weight))}
      ensures e.source in old(chunks) && old(Counting(chunks[e.source])) ==> !r.Unfinished? && Counting(chunks[e.source])
      ensures e.source !in old(chunks) ==> !r.Unfinished? && Counting(chunks[e.source])
      ensures e.source !in old(chunks) ==>
                var c := chunks[e.source];
                fresh(c) && c.arr.Length == ecCap && c.lfNum == lfNum && c.lfDen == lfDen
      ensures e.source in old(chunks) ==> chunks[e.source] == old(chunks[e.source])
    {
      r := InsertElem(EdgeId(e.source, e.destination), e.weight, weighted);
    }

    /**
     * `delete_elem(id)`: false for a vertex without a chunk; otherwise the
     * chunk's `delete_elem` of the destination, which tombstones the slot
     * it finds, removing exactly that pair.  The chunk itself stays.
     */
    method DeleteElem(id: EdgeId) returns (found: bool)
      requires Valid()
      modifies Repr
      ensures Valid() && Repr == old(Repr) && chunks == old(chunks)
      ensures forall u :: u in chunks && u != id.first ==> unchanged(chunks[u]) && unchanged(chunks[u].arr)
      ensures id.first !in chunks ==> !found
      ensures id.first in chunks ==> found == old(ChunkHit(chunks[id.first], id.second)).Some?
      ensures id.first in chunks && found ==>
                var c := chunks[id.first];
                Pairs(id.first) + multiset{old((c.arr[ChunkHit(c, id.second).value].key, c.arr[ChunkHit(c, id.second).value].val))}
                == old(Pairs(id.first))
      ensures !found ==> Pairs(id.first) == old(Pairs(id.first))
    {
      if id.first !in chunks {
        return false;
      }
      var v := id.first;
      var c := chunks[v];
      assert ChunkOk(v);
      found := ChunkDelete(c, id.second);
      forall u | u in chunks && u != v
        ensures unchanged(chunks[u]) && unchanged(chunks[u].arr) && ChunkOk(u)
      {
        assert old(ChunkOk(u));
        assert chunks[u] != c && chunks[u].arr != c.arr;
      }
      assert ChunkOk(v);
      PairsWere(v);
    }
  }

  // ---------------------------------------------------------------------
  // The iterator over one chunk
  // ---------------------------------------------------------------------

  /** `hd_rhh::iter`: source, slot position and cursor (the slot whose value it points to). */
  datatype Iter = Iter(src: int, pos: nat, cursor: Option<nat>)

  /** `end(id)`: a null cursor; the other fields are left unset in the source. */
  function End(v: int): (it: Iter)
    ensures it.cursor.None?
  {
    Iter(v, 0, None)
  }

  /** The first live slot at or after p, or |s| when there is none. */
  function NextLive(s: seq<R.Slot<int, NodeWeight>>, p: nat): (q: nat)
    requires p <= |s|
    ensures p <= q <= |s|
    ensures q < |s| ==> R.IsLive(s[q])
    ensures forall i :: p <= i < q ==> !R.IsLive(s[i])
    decreases |s| - p
  {
    if p == |s| || R.IsLive(s[p]) then p else NextLive(s, p + 1)
  }

  /** The iterator stopped at slot q: a cursor on q if it is a slot, else null. */
  function StopAt(v: int, s: seq<R.Slot<int, NodeWeight>>, q: nat): Iter
  {
    Iter(v, q, if q < |s| then Some(q) else None)
  }

  /** `operator++`: the next live slot after `pos`, or null past the last slot. */
  function Advance(s: seq<R.Slot<int, NodeWeight>>, it: Iter): (r: Iter)
    ensures r.src == it.src && r.pos > it.pos
  {
    if it.pos + 1 >= |s| then Iter(it.src, it.pos + 1, None) else StopAt(it.src, s, NextLive(s, it.pos + 1))
  }

  /** `begin(id)` on a chunk: the first live slot, or null when there is none. */
  function BeginOf(v: int, s: seq<R.Slot<int, NodeWeight>>): Iter
  {
    StopAt(v, s, NextLive(s, 0))
  }

  method Increment(c: Chunk, it: Iter) returns (r: Iter)
    requires c.Valid()
    ensures r == Advance(c.arr[..], it)
  {
    var cap := c.arr.Length;
    var pos := it.pos + 1;
    if pos >= cap {
      return it.(pos := pos, cursor := None);
    }
    while R.IsEmpty(c.arr[pos]) || R.IsDeleted(c.arr[pos])
      invariant it.pos < pos < cap
      invariant NextLive(c.arr[..], pos) == NextLive(c.arr[..], it.pos + 1)
      decreases cap - pos
    {
      pos := pos + 1;
      if pos >= cap {
        return it.(pos := pos, cursor := None);
      }
    }
    return it.(pos := pos, cursor := Some(pos));
  }

  /** `begin(id)`: a null cursor without a chunk; otherwise the chunk's first live slot. */
  method Begin(st: Store, v: int) returns (it: Iter)
    requires st.Valid()
    ensures v !in st.chunks ==> it.cursor.None?
    ensures v in st.chunks ==> it == BeginOf(v, st.chunks[v].arr[..])
  {
    it := Iter(v, 0, None);
    if v !in st.chunks {
      return;
    }
    var c := st.chunks[v];
    if R.IsEmpty(c.arr[0]) || R.IsDeleted(c.arr[0]) {
      it := Increment(c, it);
    } else {
      it := it.(cursor := Some(0));
    }
  }

  // ---------------------------------------------------------------------
  // Iteration visits exactly the live pairs
  // ---------------------------------------------------------------------

  /** The slots the cursor visits from slot q until it is null. */
  function Walk(s: seq<R.Slot<int, NodeWeight>>, q: nat): seq<nat>
    requires q <= |s|
    decreases |s| - q
  {
    if q == |s| then [] else [q] + Walk(s, NextLive(s, q + 1))
  }

  /** The live slots below n, in slot order. */
  function LiveBelow(s: seq<R.Slot<int, NodeWeight>>, n: nat): (ps: seq<nat>)
    requires n <= |s|
    ensures forall i :: 0 <= i < |ps| ==> ps[i] < n && R.IsLive(s[ps[i]])
  {
    if n == 0 then [] else LiveBelow(s, n - 1) + (if R.IsLive(s[n - 1]) then [n - 1] else [])
  }

  /** The (key, value) pairs of the given slots. */
  ghost function PairsAt(s: seq<R.Slot<int, NodeWeight>>, ps: seq<nat>): multiset<(int, NodeWeight)>
    requires forall i :: 0 <= i < |ps| ==> ps[i] < |s|
  {
    if |ps| == 0 then multiset{} else PairsAt(s, ps[..|ps| - 1]) + multiset{(s[ps[|ps| - 1]].key, s[ps[|ps| - 1]].val)}
  }

  /** The walk from the first live slot at or after i completes the live slots below i. */
  lemma {:induction false} WalkCompletes(s: seq<R.Slot<int, NodeWeight>>, i: nat)
    requires i <= |s|
    ensures LiveBelow(s, i) + Walk(s, NextLive(s, i)) == LiveBelow(s, |s|)
    decreases |s| - i
  {
    if i < |s| {
      WalkCompletes(s, i + 1);
      if R.IsLive(s[i]) {
        assert Walk(s, i) == [i] + Walk(s, NextLive(s, i + 1));
      } else {
        assert NextLive(s, i) == NextLive(s, i + 1);
      }
    }
  }

  /** Appending a slot adds its pair. */
  lemma PairsAtSnoc(s: seq<R.Slot<int, NodeWeight>>, ps: seq<nat>, q: nat)
    requires q < |s| && forall i :: 0 <= i < |ps| ==> ps[i] < |s|
    ensures PairsAt(s, ps + [q]) == PairsAt(s, ps) + multiset{(s[q].key, s[q].val)}
  {
    assert (ps + [q])[..|ps|] == ps;
  }

  /** The pairs of the live slots below n are the live pairs of the first n slots. */
  lemma {:induction false} PairsOfLiveBelow(s: seq<R.Slot<int, NodeWeight>>, n: nat)
    requires n <= |s|
    ensures PairsAt(s, LiveBelow(s, n)) == R.LiveOf(s[..n])
    decreases n
  {
    if n > 0 {
      PairsOfLiveBelow(s, n - 1);
      R.LiveOfPrefix(s, n - 1);
      var ps := LiveBelow(s, n - 1);
      if R.IsLive(s[n - 1]) {
        PairsAtSnoc(s, ps, n - 1);
      } else {
        assert LiveBelow(s, n) == ps + [] == ps;
      }
    }
  }

  /**
   * From `begin` to a null cursor the iterator visits every live slot of
   * the chunk once, in slot order, so it yields exactly the chunk's live
   * pairs.
   */
  lemma IterationYieldsLivePairs(s: seq<R.Slot<int, NodeWeight>>)
    ensures Walk(s, NextLive(s, 0)) == LiveBelow(s, |s|)
    ensures PairsAt(s, Walk(s, NextLive(s, 0))) == R.LiveOf(s)
  {
    WalkCompletes(s, 0);
    assert LiveBelow(s, 0) == [];
    assert [] + Walk(s, NextLive(s, 0)) == Walk(s, NextLive(s, 0));
    PairsOfLiveBelow(s, |s|);
    assert s[..|s|] == s;
  }

  /** Each step of the walk is one `Advance` of the iterator. */
  lemma AdvanceFollowsWalk(v: int, s: seq<R.Slot<int, NodeWeight>>, q: nat)
    requires q < |s|
    ensures Advance(s, StopAt(v, s, q)) == StopAt(v, s, if q + 1 >= |s| then |s| else NextLive(s, q + 1))
  {
  }
}
