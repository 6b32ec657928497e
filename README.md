# SAGA-Bench dynamic graph containers in Dafny

SAGA-Bench streams batches of edges into a dynamic graph container and
then runs incremental graph algorithms over it. This project models the
storage side of the program in Dafny and proves properties of that model.
It covers:

- the update paths of the five containers: `adList`, `adListShared`,
  `adListChunked` (built from `adListPerChunk`), `stinger` and the
  degree-aware `darhh`. `darhh` is built from a low-degree store
  (`ld_rhh`) and a high-degree store (`hd_rhh`), both over the Robin-Hood
  hash table `rhh`;
- the variant table `rhh_bsd`;
- the neighbour iterators of `traversal.h`;
- the value types of `types.h`;
- the CSV edge reader with its dense renumbering of vertices;
- the command-line parser;
- the dynamic source picker;
- the static CSR graph's index arithmetic.

The model is sequential. A batch is applied one edge at a time, in batch
order, and a queue-based container applies each partition's queue in
FIFO order.

There is one module per source file:

- `Types` (types.h);
- `RobinHood` (rhh.h) and `RobinHoodBsd` (rhh_bsd.h);
- `LowDegree` (darhh_ld.h), `HighDegree` (darhh_hd.h) and `DegreeAware`
  (darhh.h);
- `Routing`, the partition routing that darhh.h and adListChunked.h share;
- `DataStruc`, the counters and flags every container keeps
  (abstract_data_struc.h);
- `NeighborList`, the neighbour-vector scans of the adjacency lists;
- `AdListPerChunk`, `AdListChunked`, `AdListShared` and `AdList`;
- `Stinger` (stinger.h and stinger.cc);
- `Traversal` (traversal.h);
- `Numerals` (`atoi`/`stol`), `FileReader` (fileReader.h) and `Parser`
  (parser.cc);
- `SourcePicker` (source_picker_dynamic.h);
- `StaticGraph` (static_graph.h).

Code that updates objects in place is modelled as classes whose methods
carry `modifies` clauses and are proved against specification functions.
Pure helpers are modelled as functions and lemmas.

`insert_elem` in `rhh` and `rhh_bsd` is modelled as written. After a
Robin-Hood swap it keeps comparing against the original key's `origin`.
Because of that, full map semantics are not stated for these
tables. Instead the model proves:

- insertion preserves the multiset of pairs;
- the effect on the size counter;
- lookup soundness;
- rebuilding on doubling.

## Model

| member | source | states |
|---|---|---|
| Types.TruncMod | src/dynamic/types.h:26-28 | C++ `%` on a signed operand: the remainder lies in [0, m) for a non-negative operand and in (-m, 0] for a negative one |
| Types.NodeSetInfo | src/dynamic/types.h:45-48 | `Node::setInfo` stores the id and drops the weight |
| Types.NodeSetInfoIgnoresWeight | src/dynamic/types.h:45-50 | two `setInfo` calls that differ only in the weight give the same `Node`, whose weight always reads -1 |
| Types.NodeWeightOf | src/dynamic/types.h:61 | the one-argument `NodeWeight` constructor leaves the weight at -1 |
| Types.NodeWeightSetInfo | src/dynamic/types.h:63-65 | `NodeWeight::setInfo` stores both the id and the weight |
| Types.NodeWeightEqIsEquality | src/dynamic/types.h:74-76 | `NodeWeight::operator==` holds exactly when both fields agree |
| Types.NodeWeightLessIsStrictTotalOrder | src/dynamic/types.h:71-73 | `NodeWeight::operator<` is irreflexive, asymmetric and transitive, and any two values are ordered or equal |
| Types.Info | src/dynamic/types.h:45-67 | what a container reads back after `T::setInfo(n, w)`: id n, and weight w for `NodeWeight` or -1 for `Node` |
| Types.EdgeIdModIsFirstMod | src/dynamic/types.h:26-28 | `EdgeID % m` reduces the first component only: the second component never changes it |
| Types.MakeEdge | src/dynamic/types.h:86-92 | the five-argument `Edge` constructor stores its arguments and starts the batch id at -1 |
| Types.EdgeWithFlags | src/dynamic/types.h:93 | `Edge(s, d, se, de)` is the full constructor with weight -1 |
| Types.WeightedEdge | src/dynamic/types.h:94 | `Edge(s, d, w)` is the full constructor with both exists flags false |
| Types.PlainEdge | src/dynamic/types.h:95 | `Edge(s, d)` has weight -1, both flags false and batch id -1 |
| Types.Reverse | src/dynamic/types.h:97-99 | `reverse` swaps the endpoints and their exists flags, keeps the weight and resets the batch id |
| Types.ReverseTwice | src/dynamic/types.h:97-99 | reversing twice gives back the edge with its batch id reset to -1 |
| RobinHood.ProbeDist | src/dynamic/rhh.h:120-124 | `probe_dist`: the distance from origin to cursor going round the table, below the capacity |
| RobinHood.ProbeDistIsSourceFormula | src/dynamic/rhh.h:120-124 | the model's distance equals the source's `(cursor + capacity - origin) % capacity` |
| RobinHood.HashOfIsLive | src/dynamic/rhh.h:108-118 | a freshly hashed key is neither empty nor deleted, and its desired slot is `key mod capacity` |
| RobinHood.OriginFacts | src/dynamic/rhh.h:108-118 | `desired_pos(hash(key))` is a slot of the table and the hash word is live |
| RobinHood.MarkDeletedFacts | src/dynamic/rhh.h:34-50 | `mark_deleted` gives a deleted, non-empty slot with the same desired position, still within 32 bits |
| RobinHood.IsEmpty | src/dynamic/rhh.h:41-45 | `empty()`: an empty slot (hash word 0) is never a tombstone |
| RobinHood.IsDeleted | src/dynamic/rhh.h:47-50 | `deleted()`: `hash >> 31 == 1` holds for a 32-bit hash word exactly when bit 31 is set |
| RobinHood.MarkDeleted | src/dynamic/rhh.h:34-38 | `mark_deleted`: bit 31 set, the low 31 bits kept, still a 32-bit word |
| RobinHood.HashOf | src/dynamic/rhh.h:108-112 | `hash(key)` is a live hash word; for a capacity of at most 2^30 it is `key mod capacity` with bit 30 set |
| RobinHood.DesiredPos | src/dynamic/rhh.h:114-118 | `desired_pos`: the low 30 bits, below 2^30 and differing from the word by a multiple of 2^30 |
| RobinHood.At | src/dynamic/rhh.h:169 | the slot d steps after the origin, going round the table, lies in the table |
| RobinHood.AtIsSourceFormula | src/dynamic/rhh.h:221 | the model's slot equals the source's `(origin + d) % capacity` within one lap |
| RobinHood.AtNext | src/dynamic/rhh.h:169 | `(pos + 1) % capacity` is the next offset's slot |
| RobinHood.ProbeDistOfAt | src/dynamic/rhh.h:120-124 | walking d steps within one lap is a probe distance of d |
| RobinHood.AtOfProbeDist | src/dynamic/rhh.h:120-124 | every slot is reached from the origin after exactly its probe distance |
| RobinHood.AtDistinct | src/dynamic/rhh.h:148-170 | two offsets within one lap reach different slots |
| RobinHood.ProbeRunLive | src/dynamic/rhh.h:139-171 | one `insert_elem` probe: the live pairs afterwards plus the pair left in hand are the live pairs before plus the inserted pair |
| RobinHood.ProbeRunCounts | src/dynamic/rhh.h:139-171 | the probe keeps every hash word well formed, and only a landing in an empty slot adds a non-empty slot |
| RobinHood.ProbeRunUpdateLive | src/dynamic/rhh.h:153-158 | an update of an existing key leaves a live slot holding that key |
| RobinHood.ProbeRunPairs | src/dynamic/rhh.h:139-171 | the pairs after an insertion lie within the old pairs plus the new one; exactly those when keys are distinct and the lap finished; an unfinished lap loses exactly one pair |
| RobinHood.EndlessProbeExample | src/dynamic/rhh.h:140-170 | keys 0 and 2 inserted into two slots and deleted leave two tombstones that an insertion of key 4 cannot claim: its lap ends unfinished, where the program loops |
| RobinHood.ProbeRunFinishes | src/dynamic/rhh.h:148-170 | a probe can only fail to land when no slot is empty |
| RobinHood.ProbeRunTombstones | src/dynamic/rhh.h:155-164 | a probe never creates a tombstone, and reuses one only when one was there |
| RobinHood.ProbeRunSummary | src/dynamic/rhh.h:139-171 | the facts the table needs about one whole probe: slots stay well formed, pairs are kept, and a table with an empty slot and no tombstones takes the pair |
| RobinHood.RebuildStart | src/dynamic/rhh.h:235-239 | the fresh all-empty array of `double_capacity` is rebuilt from no old slots |
| RobinHood.RebuildEnd | src/dynamic/rhh.h:240-244 | once every old slot is re-inserted, the new array holds the old pairs (exactly, when keys are distinct) |
| RobinHood.ReinsertStep | src/dynamic/rhh.h:240-243 | re-inserting old slot i extends the pairs held from the first i old slots to the first i + 1 |
| RobinHood.Tombstone | src/dynamic/rhh.h:173-183 | `delete_elem` at a slot keeps its key and value and turns it into a tombstone |
| RobinHood.TombstoneLive | src/dynamic/rhh.h:173-183 | a tombstone removes exactly the pair of the live slot it replaces and keeps the count of non-empty slots |
| RobinHood.FindScan | src/dynamic/rhh.h:215-230 | `find_elem`: a slot it reports is live and holds the key |
| RobinHood.FindScanCharacterised | src/dynamic/rhh.h:215-230 | `find_elem` reports slot e exactly when e holds the key live and every slot before it is non-empty, does not hold the key live and is no closer to its own desired slot |
| RobinHood.FindScanIsLive | src/dynamic/rhh.h:215-230 | what `find_elem` reports is a pair stored under that key |
| RobinHood.DistSumBound | src/dynamic/rhh.h:247-257 | the summed probe distances of n slots are at most n times (capacity - 1) |
| RobinHood.AvgDist | src/dynamic/rhh.h:247-257 | the average probe distance is below the capacity |
| RobinHood.Dec32 | src/dynamic/rhh.h:180 | `--size` on an unsigned 32-bit counter: one less, or 2^32 - 1 from 0 |
| RobinHood.RevivalNotCounted | src/dynamic/rhh.h:153-158 | as written, reviving a tombstone leaves `size` one below the number of live pairs |
| RobinHood.CountedSizeTracksLive | src/dynamic/rhh.h:126-171 | with revivals counted, a finished insertion keeps `size` equal to the number of live pairs |
| RobinHood.TombstoneCount | src/dynamic/rhh.h:173-183 | a deletion's unsigned decrement keeps a correct `size` correct |
| RobinHood.SizeUnderflowExample | src/dynamic/rhh.h:139-183 | insert, delete, re-insert and delete key 0 on a 4-slot table: the table is empty while `size` has wrapped to 2^32 - 1 |
| RobinHood.LoadBound | src/dynamic/rhh.h:142 | the load check with a load factor in [0.1, 1]: a table that doubles holds at least a tenth of its capacity; one that does not has a free slot |
| RobinHood.DoublePow2 | src/dynamic/rhh.h:236-238 | doubling keeps the capacity a power of two |
| RobinHood.Table.constructor | src/dynamic/rhh.h:98-106 | every slot starts as (init key, init value, hash 0), size 0, for a power-of-two capacity and a load factor in [0.1, 1] |
| RobinHood.Table.ProbeStep | src/dynamic/rhh.h:148-169 | one pass of the probe loop: it lands exactly as `LandsAt` says, otherwise swaps or passes over as `Carry` says |
| RobinHood.Table.ProbeInsert | src/dynamic/rhh.h:144-170 | the probe loop leaves the slots `ProbeRun` gives, and `size` grows by one exactly when `do_insert` ran, into an empty slot or a poorer tombstone |
| RobinHood.Table.InsertWithin | src/dynamic/rhh.h:139-171 | `insert_elem` with the capacity bounded: without doubling, the probe run over the old slots; with doubling, a larger fresh array and a finished probe; the pairs afterwards are at most the old pairs plus the new one, and exactly that when keys are distinct and the probe finished |
| RobinHood.Table.GrowIfFull | src/dynamic/rhh.h:142-143 | the load check: the table is unchanged, or doubled holding the same pairs |
| RobinHood.Table.DoubleCapacity | src/dynamic/rhh.h:232-245 | a new array at least twice as long, free of tombstones, `size` counting its slots and holding the old live pairs |
| RobinHood.Table.Reinsert | src/dynamic/rhh.h:241-242 | one loop iteration of `double_capacity`: old slot i is re-inserted if it is live |
| RobinHood.Table.InsertElem | src/dynamic/rhh.h:139-171 | `insert_elem`: the table afterwards holds the old pairs plus the new one (exactly, when keys are distinct and the probe finished) |
| RobinHood.Table.FindElem | src/dynamic/rhh.h:215-230 | `find_elem` returns the slot `FindScan` finds |
| RobinHood.Table.GetElem | src/dynamic/rhh.h:185-193 | `get_elem`: on success the value of a live pair under the key; otherwise the caller's value is untouched; nothing changes |
| RobinHood.Table.DeleteElem | src/dynamic/rhh.h:173-183 | `delete_elem`: the slot found becomes a tombstone and `size` is decremented as an unsigned 32-bit value; otherwise nothing changes |
| RobinHood.Table.AvgProbeDist | src/dynamic/rhh.h:247-257 | `avg_probe_dist` is the summed probe distances of the live slots divided by the capacity |
| RobinHood.Land | src/dynamic/rhh.h:149-164 | the landing step (empty slot: `do_insert`; same key: new value, and the carried hash when deleted; poorer tombstone: `do_insert`) keeps the table's length and every hash word well formed |
| RobinHood.Carry | src/dynamic/rhh.h:159-169 | a step that does not land swaps with a richer resident or passes over it, and leaves the probe ready at the next offset; what it does to the pairs is `ProbeRunLive`'s |
| RobinHood.ProbeRun | src/dynamic/rhh.h:148-170 | the `for (;;)` loop from offset d keeps the table's length; its meaning is stated by `ProbeRunLive`, `ProbeRunCounts` and `ProbeRunFinishes` |
| RobinHood.ProbeOn | src/dynamic/rhh.h:165-169 | the rest of the loop after a non-landing step keeps the table's length |
| RobinHoodBsd.HashFacts | src/dynamic/rhh_bsd.h:87-97 | a computed hash is never the empty mark and fits 32 bits; its desired slot is in the table and is `key mod capacity` for tables up to 2^31 slots |
| RobinHoodBsd.Hash | src/dynamic/rhh_bsd.h:87-91 | `hash(key)` is a 32-bit word with bit 31 set; for a capacity of at most 2^31 it is `key mod capacity` with bit 31 set |
| RobinHoodBsd.DesiredPos | src/dynamic/rhh_bsd.h:93-97 | `desired_pos`: the low 31 bits, below 2^31 and differing from the word by a multiple of 2^31 |
| RobinHoodBsd.CyclicDistFacts | src/dynamic/rhh_bsd.h:99-103 | `cyclic_dist(o, c)` is the source's formula, lies below the capacity and is 0 exactly when o == c |
| RobinHoodBsd.StoredCount | src/dynamic/rhh_bsd.h:72-76 | as many pairs are stored as there are non-empty slots |
| RobinHoodBsd.Carry | src/dynamic/rhh_bsd.h:132-138 | a step past a non-empty slot keeps the probe well formed at the next offset |
| RobinHoodBsd.Probe | src/dynamic/rhh_bsd.h:123-139 | the `for (;;)` loop of `insert_elem`: it keeps the table's size |
| RobinHoodBsd.ProbeHere | src/dynamic/rhh_bsd.h:128-131 | a probe at an empty slot stores the carried pair there and ends |
| RobinHoodBsd.ProbeNext | src/dynamic/rhh_bsd.h:132-138 | a probe at a non-empty slot goes on with what the swap-or-pass step leaves |
| RobinHoodBsd.ProbeStored | src/dynamic/rhh_bsd.h:119-140 | the stored pairs afterwards, with the pair still in hand, are those before with the inserted pair |
| RobinHoodBsd.ProbeWellFormed | src/dynamic/rhh_bsd.h:119-140 | every slot the probe writes carries a well-formed hash |
| RobinHoodBsd.ProbeCount | src/dynamic/rhh_bsd.h:106-116 | a landing adds exactly one non-empty slot; a lap without landing adds none |
| RobinHoodBsd.ProbeLapped | src/dynamic/rhh_bsd.h:127-139 | a probe that laps without landing passed only non-empty slots |
| RobinHoodBsd.ProbeLands | src/dynamic/rhh_bsd.h:127-139 | a table with an empty slot always takes the pair |
| RobinHoodBsd.ProbeSummary | src/dynamic/rhh_bsd.h:119-140 | one probe into a table with an empty slot lands, keeps the slots well formed, stores the pair once more and fills one more slot |
| RobinHoodBsd.InsertTwiceStoresTwice | src/dynamic/rhh_bsd.h:119-140 | no key comparison: inserting the same pair twice stores it twice |
| RobinHoodBsd.Find | src/dynamic/rhh_bsd.h:185-200 | `find_pos`: a slot it reports is non-empty and holds the key |
| RobinHoodBsd.FindCharacterised | src/dynamic/rhh_bsd.h:185-200 | `find_pos` reports slot e exactly when e holds the key and every earlier slot of the run is non-empty, lacks the key and is no closer to its desired slot |
| RobinHoodBsd.StoredHas | src/dynamic/rhh_bsd.h:163-171 | a non-empty slot's pair is among the stored pairs |
| RobinHoodBsd.DoublePow2 | src/dynamic/rhh_bsd.h:206 | doubling keeps the capacity a power of two |
| RobinHoodBsd.RebuildStart | src/dynamic/rhh_bsd.h:205-207 | the fresh all-empty array is rebuilt from no old slots |
| RobinHoodBsd.RebuildStep | src/dynamic/rhh_bsd.h:208-211 | re-inserting old slot i extends the stored pairs from the first i old slots to the first i + 1 |
| RobinHoodBsd.RebuildEnd | src/dynamic/rhh_bsd.h:202-213 | after the loop the new array stores exactly the old pairs, one non-empty slot per occupied old slot |
| RobinHoodBsd.RebuildRoom | src/dynamic/rhh_bsd.h:208-211 | the new table has room for the next re-inserted pair |
| RobinHoodBsd.Table.constructor | src/dynamic/rhh_bsd.h:78-85 | every slot starts as (init key, init value, hash 0), storing nothing, size 0 |
| RobinHoodBsd.Table.ProbeStep | src/dynamic/rhh_bsd.h:127-138 | one pass of the loop: it lands exactly at an empty slot (size + 1), otherwise swaps or passes as `Carry` says |
| RobinHoodBsd.Table.ProbeInsert | src/dynamic/rhh_bsd.h:123-139 | the probe loop leaves the slots `Probe` gives, and `size` grows by one exactly when it lands |
| RobinHoodBsd.Table.Place | src/dynamic/rhh_bsd.h:123-139 | with an empty slot left, the probe stores the pair and raises `size` by one |
| RobinHoodBsd.Table.InsertWithin | src/dynamic/rhh_bsd.h:118-140 | `insert_elem` with the capacity bounded: `size` grows by one and the pair is stored once more |
| RobinHoodBsd.Table.GrowIfFull | src/dynamic/rhh_bsd.h:121-122 | the load check: the table is unchanged, or doubled storing the same pairs; afterwards a slot is free |
| RobinHoodBsd.Table.DoubleCapacity | src/dynamic/rhh_bsd.h:202-213 | a new array at least twice as long storing the same pairs, with the same `size` |
| RobinHoodBsd.Table.Reinsert | src/dynamic/rhh_bsd.h:209-210 | one iteration of the `double_capacity` loop |
| RobinHoodBsd.Table.InsertElem | src/dynamic/rhh_bsd.h:118-140 | `insert_elem`: every call raises `size` by exactly one and stores the pair once more |
| RobinHoodBsd.Table.FindPos | src/dynamic/rhh_bsd.h:185-200 | `find_pos` returns the slot `Find` finds |
| RobinHoodBsd.Table.GetElem | src/dynamic/rhh_bsd.h:163-171 | `get_elem`: the value at the slot found, a stored pair under the key; otherwise the caller's value; the table is unchanged |
| LowDegree.Origin | src/dynamic/darhh_ld.h:117 | the scan origin `id % capacity` is a slot of the table |
| LowDegree.EntriesShareOrigin | src/dynamic/darhh_ld.h:117 | every key (v, w) hashes to v's origin, because `EdgeID % m` reduces the source alone |
| LowDegree.Counted | src/dynamic/darhh_ld.h:120-129 | the offsets `get_degree` counts lie in the run, hold live entries of v, and are increasing |
| LowDegree.CountedAreLiveEntries | src/dynamic/darhh_ld.h:127-128 | a counted slot holds a live entry whose key has source v |
| LowDegree.GetDegree | src/dynamic/darhh_ld.h:114-131 | `get_degree(v)` is the number of live entries of v met along v's run before an empty slot or a closer resident; it is at most the capacity and the table is unchanged |
| LowDegree.End | src/dynamic/darhh_ld.h:150-156 | `end(v)` has source v and a null cursor |
| LowDegree.ScanStop | src/dynamic/darhh_ld.h:86-103 | the corrected `++` stops at the first later offset that leaves the run, holds a live entry of v, or completes the lap, and passes only in-run slots without v's entries |
| LowDegree.CursorAt | src/dynamic/darhh_ld.h:92-100 | the cursor left at a stop is that slot when it holds a live entry of v, and null otherwise |
| LowDegree.Advance | src/dynamic/darhh_ld.h:86-103 | one step keeps the source and origin and leaves the position inside the table |
| LowDegree.BeginOffset | src/dynamic/darhh_ld.h:140-146 | `begin` stops at the origin unless it holds no live entry of v |
| LowDegree.BeginOf | src/dynamic/darhh_ld.h:133-148 | the iterator `begin(v)` returns starts from v's origin |
| LowDegree.Increment | src/dynamic/darhh_ld.h:85-103 | `operator++`, with its lap test corrected, computes `Advance` |
| LowDegree.Begin | src/dynamic/darhh_ld.h:133-148 | `begin(v)`: a null cursor for an empty origin slot, the origin for a live entry of v, else one `++` |
| LowDegree.WalkAfter | src/dynamic/darhh_ld.h:86-131 | from any offset, the cursor positions still to come are the entries `get_degree` counts after it |
| LowDegree.IterationMatchesDegree | src/dynamic/darhh_ld.h:86-148 | with the corrected lap test, `begin(v)` followed by `++` until null visits exactly the entries `get_degree(v)` counts, in scan order |
| LowDegree.AdvanceFollowsWalk | src/dynamic/darhh_ld.h:86-103 | each step of that walk is one `Advance` |
| LowDegree.AsWrittenAgreesWithinLap | src/dynamic/darhh_ld.h:88-102 | as written, the `++` loop stops where the corrected one does whenever the corrected one stops before a full lap |
| LowDegree.AsWrittenIterationCycles | src/dynamic/darhh_ld.h:88-102 | inserting (0, 1) and (0, 2) into an empty two-slot store gives a table where `get_degree(0)` is 2 but `++` as written goes from slot 1 back to slot 0 and never reaches a null cursor |
| LowDegree.EdgeKey | src/dynamic/darhh_ld.h:108 | an edge is stored under the key (source, destination) |
| LowDegree.EdgeValue | src/dynamic/darhh_ld.h:109-110 | the stored value is the destination's record with the edge's weight, as `setInfo` leaves it |
| LowDegree.InsertEdge | src/dynamic/darhh_ld.h:105-112 | `insert_elem(edge)`: the table keeps its array unless it doubled; the probe finishes when the table counts its entries; the live entries are at most the old ones plus ((source, destination), destination record), and exactly that when keys are distinct and the probe finished |
| HighDegree.DefaultChunkCapIsPow2 | src/dynamic/darhh_hd.h:47 | the default chunk capacity 2^5 is a power of two, as the chunk constructor demands |
| HighDegree.ChunkInsert | src/dynamic/darhh_hd.h:115 | a chunk's `insert_elem` keeps it a valid chunk holding its old pairs plus the new one (exactly, when keys are distinct), and a chunk with no deletions always takes the pair |
| HighDegree.ChunkHit | src/dynamic/darhh_hd.h:125 | the slot a chunk's `find_elem` finds is a live slot of that chunk |
| HighDegree.ChunkDelete | src/dynamic/darhh_hd.h:125 | a chunk's `delete_elem` removes exactly the pair of the slot it finds, or changes nothing |
| HighDegree.Store.constructor | src/dynamic/darhh_hd.h:43-45 | `hd_rhh(ec_cap, load_factor)`: no vertex has a chunk; capacity and load factor are stored |
| HighDegree.Store.Default | src/dynamic/darhh_hd.h:46-47 | `hd_rhh()`: chunks of 2^5 slots with load factor 0.9 |
| HighDegree.Store.Degree | src/dynamic/darhh_hd.h:128-136 | `get_degree(v)` is 0 for a vertex without a chunk |
| HighDegree.Store.PairsStep | src/dynamic/darhh_hd.h:102-116 | a step that kept every chunk but v's, and created at most v's, changed the pairs of v alone |
| HighDegree.Store.DegreeCountsPairs | src/dynamic/darhh_hd.h:128-136 | while nothing was deleted from its chunk, a vertex's degree is the number of its live pairs |
| HighDegree.Store.NewChunk | src/dynamic/darhh_hd.h:109-111 | a vertex without a chunk gets a fresh, empty chunk; the other chunks stay |
| HighDegree.Store.Upsert | src/dynamic/darhh_hd.h:112-115 | the chunk of v takes the pair; no other vertex's chunk changes |
| HighDegree.Store.InsertElem | src/dynamic/darhh_hd.h:102-116 | `insert_elem(id, w)`: the chunk of `id.first` is created when missing and then holds exactly (`id.second`, its record); an existing chunk holds at most its old pairs plus that pair, exactly that when keys are distinct and the probe finished, which it does when the chunk counts its entries; no other chunk changes |
| HighDegree.Store.InsertEdge | src/dynamic/darhh_hd.h:96-100 | `insert_elem(edge)`: the source's chunk is created when missing and then holds exactly (destination, its record); an existing chunk holds at most its old pairs plus that pair, exactly that when keys are distinct and the probe finished; no other chunk changes |
| HighDegree.Store.DeleteElem | src/dynamic/darhh_hd.h:118-126 | `delete_elem`: false without a chunk; otherwise the chunk's deletion of the destination; no chunk is removed and no other chunk changes |
| HighDegree.End | src/dynamic/darhh_hd.h:158-165 | `end` has a null cursor |
| HighDegree.NextLive | src/dynamic/darhh_hd.h:85-92 | the first live slot at or after p, passing only empty or deleted slots |
| HighDegree.Advance | src/dynamic/darhh_hd.h:78-94 | `operator++` moves strictly forward and keeps the source |
| HighDegree.Increment | src/dynamic/darhh_hd.h:78-94 | the `operator++` loops compute `Advance` |
| HighDegree.Begin | src/dynamic/darhh_hd.h:138-156 | `begin(v)`: a null cursor without a chunk, otherwise the chunk's first live slot |
| HighDegree.LiveBelow | src/dynamic/darhh_hd.h:85-86 | the live slots below n, in slot order |
| HighDegree.WalkCompletes | src/dynamic/darhh_hd.h:78-94 | the walk from the first live slot at or after i completes the live slots below i |
| HighDegree.PairsOfLiveBelow | src/dynamic/darhh_hd.h:85-93 | the pairs at the live slots below n are the live pairs of the first n slots |
| HighDegree.IterationYieldsLivePairs | src/dynamic/darhh_hd.h:78-94 | from `begin` to a null cursor the iterator visits every live slot once, in slot order, yielding exactly the chunk's live pairs |
| HighDegree.AdvanceFollowsWalk | src/dynamic/darhh_hd.h:78-94 | each step of that walk is one `operator++` |
| DegreeAware.LdCapIsPow2 | src/dynamic/darhh_ld.h:54 | the default low-store capacity 2^20 is a power of two, as the table constructor demands |
| DegreeAware.TombAll | src/dynamic/darhh.h:84-88 | tombstoning a list of slots keeps the table's length and well-formed hashes |
| DegreeAware.TombAllAt | src/dynamic/darhh.h:87 | after the tombstoning, a listed slot is a tombstone of its old self and every other slot is unchanged |
| DegreeAware.TombStep | src/dynamic/darhh.h:87 | one more `mark_deleted` is one more step of the tombstoning |
| DegreeAware.TombAllLive | src/dynamic/darhh.h:84-88 | tombstoning live slots at distinct offsets of the run takes exactly their (key, value) entries out of the live ones and empties no slot |
| DegreeAware.ScanAgrees | src/dynamic/darhh_ld.h:86-103 | a step of the low iterator only looks ahead of its position, so tables that agree there step alike |
| DegreeAware.CountedGone | src/dynamic/darhh_ld.h:114-131 | a table whose live entries of v in the run were all uncounted before has none left to count |
| DegreeAware.CountedTail | src/dynamic/darhh_ld.h:114-131 | a slot not counted from run offset d is not counted from offset d + 1 either |
| DegreeAware.TombstonedRunCountsNothing | src/dynamic/darhh.h:82-89 | tombstoning every entry `get_degree(v)` counts leaves v's low degree at 0 |
| DegreeAware.MovedPair | src/dynamic/darhh.h:85-86 | the pair handed to the high store is the low slot's neighbour id with its weight as reported |
| DegreeAware.SlotsAlong | src/dynamic/darhh.h:84-88 | the slots at the given offsets of the run, in order |
| DegreeAware.TransferStep | src/dynamic/darhh.h:84-88 | one turn of the transfer loop: the slot under the cursor is still the original entry, and tombstoning it then stepping keeps the loop's invariant |
| DegreeAware.MovedSlotsOk | src/dynamic/darhh.h:84-88 | the slots the iterator of n yields are live entries keyed by n, as `insert` made them; tombstoning them takes exactly their entries out of the low store's live ones and keeps its count of non-empty slots |
| DegreeAware.MovedLifts | src/dynamic/darhh.h:85-86 | the (neighbour, record) pairs handed to the high store for slots of n, read back under key (n, neighbour), are exactly those slots' entries |
| DegreeAware.TookTrans | src/dynamic/darhh.h:146-151 | a store that took the entries m and then the entries n took m + n: bounded by the old entries plus both, and exactly that when their keys are distinct |
| DegreeAware.TookHandedOver | src/dynamic/darhh.h:82-89 | entries handed from one store and taken back by the other leave at most what was held, and exactly that when keys are distinct |
| DegreeAware.HighTook | src/dynamic/darhh_hd.h:96-100 | when only v's chunk changed, taking the pairs ps, the high store's (source, destination) entries took the entries of ps under source v |
| DegreeAware.RouteOf | src/dynamic/darhh.h:91-114 | the store `partition::insert` picks: low for a new source or low degree 1; migrate-then-high exactly at low degree 2; at low degree 0, high when the source has high-store entries, else low |
| DegreeAware.Partition.constructor | src/dynamic/darhh.h:66-72 | a partition starts with an empty low store of 2^20 slots and a high store of 2^5-slot chunks, both with load factor 0.9, and holds no entry |
| DegreeAware.Partition.Untouched | src/dynamic/darhh.h:141-160 | a partition none of whose objects changed is as valid as it was and holds the entries it held |
| DegreeAware.Partition.MarkSlotDeleted | src/dynamic/darhh.h:87 | `ld->arr[pos].mark_deleted()` changes that one slot's hash and nothing else |
| DegreeAware.Partition.TombstoneRun | src/dynamic/darhh.h:84-88 | the low-store half of `transfer_low_to_high`: every slot the iterator yields becomes a tombstone and is handed back as it was, in iterator order |
| DegreeAware.Partition.TombstoneLow | src/dynamic/darhh.h:84-88 | the same seen from the partition: n's low degree drops to 0, as many slots are handed back as it was, all keyed by n, and the partition's entries plus the handed-back ones are exactly what it held |
| DegreeAware.Partition.MoveSlot | src/dynamic/darhh.h:85-86 | one moved slot inserted under (n, neighbour): n gets a chunk, no other vertex's pairs change, no chunk has a deletion, and n's pairs take the slot's pair |
| DegreeAware.Partition.InsertAll | src/dynamic/darhh.h:85-86 | the high-store half: each moved slot is inserted under (n, neighbour); n gets a chunk exactly when a slot moved; no other vertex's pairs change; n's pairs take the moved pairs, exactly when keys are distinct |
| DegreeAware.Partition.MoveHigh | src/dynamic/darhh.h:85-86 | the same seen from the partition: it takes exactly the entries of the handed-back slots when keys are distinct, and at most those otherwise |
| DegreeAware.Partition.TransferLowToHigh | src/dynamic/darhh.h:81-89 | every entry of n that `get_degree` counts becomes a tombstone with the low store's array and size unchanged; n's low degree drops to 0; n gets a chunk exactly when it had low entries; no other chunk changes; the partition holds at most the entries it held, and exactly those when keys are distinct |
| DegreeAware.Partition.LowStepTook | src/dynamic/darhh.h:95 | when the low store alone took some entries, the partition took them |
| DegreeAware.Partition.LowHandedOver | src/dynamic/darhh.h:87 | when the low store alone gave up some entries, the partition gave up exactly those |
| DegreeAware.Partition.HighStepTook | src/dynamic/darhh.h:104 | when the high store alone took pairs of v, the partition took their entries under source v |
| DegreeAware.Partition.InsertLow | src/dynamic/darhh.h:95 | the low store takes the edge and its probe finishes; the high store is untouched; the partition holds at most its old entries plus the edge's ((source, destination), record) entry, exactly that when keys are distinct |
| DegreeAware.Partition.InsertHigh | src/dynamic/darhh.h:104 | the high store takes the edge: a new chunk holds exactly its pair, an existing one at most its old pairs plus that pair, exactly that when keys are distinct; no other chunk changes; the low store is untouched; the partition takes the edge's entry in the same sense |
| DegreeAware.Partition.MigrateThenInsert | src/dynamic/darhh.h:102-104 | the threshold case: the source ends with a chunk and low degree 0, the low store keeps its array and size, and the partition holds at most its old entries plus the edge's, exactly that when keys are distinct |
| DegreeAware.Partition.Insert | src/dynamic/darhh.h:91-114 | `partition::insert` takes the route `RouteOf` gives and, whatever the route, the partition holds at most its old entries plus the edge's, exactly that when keys are distinct; low route: the high store is untouched; high route: the low store is untouched, no other chunk changes and the source's chunk takes the pair; migrate route: low degree 0 |
| DegreeAware.ApplyQueue | src/dynamic/darhh.h:141-160 | a partition's thread inserts each queued edge in queue order: the partition holds at most its old entries plus those of the queue, exactly that when keys are distinct |
| DegreeAware.NewPartitions | src/dynamic/darhh.h:133-138 | the constructor's loops make the requested number of valid, separate, empty partitions |
| DegreeAware.Darhh.constructor | src/dynamic/darhh.h:123-139 | nt/2 out- and nt/2 in-partitions when directed, nt out and none in otherwise, all empty; `property` starts at -1 and `affected` at false for the initial vertices |
| DegreeAware.Darhh.Enqueue | src/dynamic/darhh.h:217-236 | per edge: both endpoints affected, one node per endpoint not yet existing, two edges, the edge queued at `pt_hash(source)` and its reverse at `pt_hash(destination)` (in-partition when directed) |
| DegreeAware.Darhh.ApplyAt | src/dynamic/darhh.h:141-160 | one partition's thread drains its queue: that partition takes the queue's entries as `ApplyQueue` says, every other partition holds what it held, and flags and counters are unchanged |
| DegreeAware.Darhh.Drain | src/dynamic/darhh.h:237-240 | every partition drains its queue: partition k (out-partitions first, then in-partitions) takes the entries of queue k; flags and counters are unchanged |
| DegreeAware.Darhh.Update | src/dynamic/darhh.h:168-241 | `update`: flags and counters change as `Enqueue` says, and each partition takes the entries of exactly its queue: out-partition k the edges whose source hashes to k (plus reverses when undirected), in-partition k the reverses whose destination hashes to k |
| DegreeAware.Darhh.OutDegree | src/dynamic/darhh.h:260-268 | `out_degree(n)`: n's low degree in out-partition `pt_hash(n)`, or its high degree there when the low degree is 0 |
| DegreeAware.Darhh.InDegree | src/dynamic/darhh.h:243-258 | `in_degree(n)`: the same in the in-partition when directed, in the out-partition otherwise |
| Routing.PtHash | src/dynamic/darhh.h:162-166 | `pt_hash(n) = n % P` with C++'s truncating `%`: n mod P in [0, P) for n >= 0, a value in (-P, 0] otherwise |
| Routing.QueueStep | src/dynamic/darhh.h:218-233 | enqueueing edge i extends each out- and in-queue by exactly the edges that edge routes to it, nothing else |
| Routing.QueuesStep | src/dynamic/adListChunked.h:297-307 | one `EnqueueEdge` of edge i turns every out- and in-queue of the first i edges into that of the first i + 1 |
| Routing.QueuesRouted | src/dynamic/darhh.h:223-233 | every queued edge sits in the queue of the partition its own source hashes to, which is the partition the degree queries ask |
| Routing.QueuedEndpoints | src/dynamic/adListChunked.h:286-307 | queued edges keep every bound on endpoints that the batch keeps, so partitions index only valid vertices |
| Routing.QueuedFrom | src/dynamic/adListChunked.h:286-307 | a queued edge is an edge of the batch or the reverse of one: routing invents no edge |
| Routing.QueuedEveryEdge | src/dynamic/darhh.h:218-233 | no edge is lost: each batch edge is on its source's out-queue, its reverse on its destination's in-queue (directed) or out-queue (undirected) |
| Routing.HitsOnce | src/dynamic/darhh.h:162-166 | a vertex id >= 0 hashes to exactly one of the P partitions |
| Routing.QueuedSnoc | src/dynamic/darhh.h:218-233 | one more batch edge adds one queued edge per partition its source or destination hashes to |
| Routing.QueuedTotal | src/dynamic/darhh.h:234-235 | over all partitions the queues hold exactly 2 * |batch| edges, matching the two `num_edges` increments per edge |
| Routing.ZeroQueued | src/dynamic/adListChunked.h:285-307 | an empty batch queues nothing on any partition |
| Routing.EnqueueEdge | src/dynamic/adListChunked.h:297-307 | one edge's enqueues: the edge appended to its source's out-queue, its reverse to its destination's in- or out-queue; all other queues unchanged |
| DataStruc.MarkAffected | src/dynamic/darhh.h:219-220 | raising `affected` for both endpoints of each edge keeps the flag vector's length |
| DataStruc.MarkAffectedExactly | src/dynamic/adListChunked.h:294-295 | after a batch a vertex is flagged exactly when it was flagged before or some batch edge touches it |
| DataStruc.MarkAffectedStep | src/dynamic/darhh.h:219-220 | processing one more edge raises the flags of its source and its destination on top of the earlier edges' |
| DataStruc.NewNodes | src/dynamic/darhh.h:221-222 | the vertex count grows by one per endpoint whose exists flag is false, hence by at most two per edge |
| DataStruc.NewNodesStep | src/dynamic/adListChunked.h:290-293 | one more edge adds one to the node count for each of its endpoints not yet existing |
| DataStruc.NoNewNodes | src/dynamic/darhh.h:221-222 | a batch whose endpoints all exist leaves `num_nodes` unchanged |
| DataStruc.NewNodesAppend | src/dynamic/darhh.h:218-222 | counting new vertices batch by batch equals counting them over the concatenated batches |
| AdListChunked.NumPartitions | src/dynamic/adListChunked.h:93-96 | the partition count is even and is the given count, or one less when the count is odd |
| AdListChunked.CeilDiv | src/dynamic/adListChunked.h:66 | `ceil(N / D)` on integers: the least r with r * D >= N |
| AdListChunked.HashWithinChunk | src/dynamic/adListChunked.h:169-175 | `hash_within_chunk(n) = n / D`; for n >= 0 it is the quotient of n by D, never negative |
| AdListChunked.SplitRecombines | src/dynamic/adListChunked.h:161-175 | a vertex id is its index within the partition times D plus its partition (`pt_hash`) |
| AdListChunked.SplitInjective | src/dynamic/adListChunked.h:161-175 | two vertices share partition and index within it exactly when they are the same vertex, so no two vertices share a neighbour vector |
| AdListChunked.SplitInBounds | src/dynamic/adListChunked.h:66-67 | each vertex below N indexes one of the ceil(N / D) vectors of its partition |
| AdListChunked.Rewritten | src/dynamic/adListChunked.h:77-78 | `partition::insert` rewrites each source to `source / D` and changes nothing else of the edge |
| AdListChunked.VectorHoldsOwnEdges | src/dynamic/adListChunked.h:161-175 | among the edges queued on n's partition, an edge's rewritten source is n's index exactly when its source is n, so n's vector receives exactly n's edges |
| AdListChunked.BatchEdgeLands | src/dynamic/adListChunked.h:285-309 | after the partitions drain their queues, each batch edge's destination is a neighbour in the vector `out_degree` reads for its source |
| AdListChunked.MaxEndpoint | src/dynamic/adListChunked.h:285-309 | a bound above every endpoint of the batch |
| AdListChunked.AllQueuedEndpoints | src/dynamic/adListChunked.h:285-309 | when the batch's endpoints are initial vertices, so are the sources of every queued edge |
| AdListChunked.Partition.constructor | src/dynamic/adListChunked.h:64-68 | a partition holds its label, its divisor D and an `adListPerChunk` of ceil(N / D) empty vectors |
| AdListChunked.Partition.Insert | src/dynamic/adListChunked.h:75-80 | the partition's lists become the old lists with the rewritten edges applied in order |
| AdListChunked.NewPartitions | src/dynamic/adListChunked.h:102-121 | the constructor's loop creates partitions labelled 0 .. count-1, each on its own new `adListPerChunk` of ceil(N / D) empty vectors |
| AdListChunked.Chunked.constructor | src/dynamic/adListChunked.h:89-154 | the odd count is rounded down; directed gets P/2 out- and P/2 in-partitions of divisor P/2, undirected P out-partitions of divisor P; `property` is -1 and `affected` false for the N initial vertices (the three-argument form passes 16) |
| AdListChunked.Chunked.Enqueue | src/dynamic/adListChunked.h:285-309 | the main thread's loop: every queue holds exactly the edges routed to it, `affected` and `num_nodes` follow the batch, `num_edges` grows by 2 per edge |
| AdListChunked.Chunked.ApplyAt | src/dynamic/adListChunked.h:177-202 | one partition's thread applies its queue, sources rewritten, and leaves every other partition unchanged |
| AdListChunked.Chunked.Drain | src/dynamic/adListChunked.h:177-202 | every partition ends up with exactly its own queue applied in FIFO order |
| AdListChunked.Chunked.Update | src/dynamic/adListChunked.h:204-315 | `update(el)`: each out-partition k ends up with the rewritten edges whose source hashes to k (and their reverses when undirected) applied in order, in-partitions likewise; counters and flags as in `Enqueue` |
| AdListChunked.Chunked.OutDegree | src/dynamic/adListChunked.h:327-332 | `out_degree(n)` is the degree of vector `hash_within_chunk(n)` of out-partition `pt_hash(n)`: at least the number of distinct real neighbour ids in the vector, and exactly that number when the vector holds no duplicate id and no free-slot -1 |
| AdListChunked.Chunked.InDegree | src/dynamic/adListChunked.h:317-325 | directed: the same count for n's vector in in-partition `pt_hash(n)`; undirected: the out-degree |
| AdListPerChunk.Applied | src/dynamic/adListPerChunk.h:68-73 | applying a batch keeps the number of neighbour vectors |
| AdListPerChunk.AppliedStep | src/dynamic/adListPerChunk.h:71-72 | the edge i of the loop upserts its destination into its source's vector after the edges before it |
| AdListPerChunk.AppliedSnoc | src/dynamic/adListPerChunk.h:71-72 | applying one more edge upserts it into the vectors the earlier edges left |
| AdListPerChunk.AppliedAppend | src/dynamic/adListPerChunk.h:68-73 | applying two batches one after the other is applying their concatenation |
| AdListPerChunk.AppliedElsewhere | src/dynamic/adListPerChunk.h:38-66 | a vertex that is no edge's source keeps its vector unchanged |
| AdListPerChunk.AppliedHolds | src/dynamic/adListPerChunk.h:38-73 | after the batch every edge's destination is a neighbour of its source, every earlier neighbour is kept, and vectors without duplicate ids still have none |
| AdListPerChunk.AppliedDegreeBounds | src/dynamic/adListPerChunk.h:76-78 | `degree` never shrinks and grows by at most one per edge of the vertex: repeated edges are not counted twice |
| AdListPerChunk.PerChunk.constructor | src/dynamic/adListPerChunk.h:31-35 | n empty neighbour vectors |
| AdListPerChunk.PerChunk.UpdateForExistingVertex | src/dynamic/adListPerChunk.h:37-66 | only the source's vector changes, and it becomes the upsert of the destination |
| AdListPerChunk.PerChunk.Update | src/dynamic/adListPerChunk.h:68-73 | the vectors become the old ones with the batch applied in list order |
| AdListPerChunk.PerChunk.Degree | src/dynamic/adListPerChunk.h:75-78 | `degree(n)` is the size of n's vector: at least the number of distinct real neighbour ids in the vector, and exactly that number when the vector holds no duplicate id and no free-slot -1 |
| NeighborList.FirstWith | src/dynamic/adList.h:100-110 | the index of the first entry with the id, and none exactly when no entry has it |
| NeighborList.UpsertSlot | src/dynamic/adListPerChunk.h:42-59 | the slot an upsert writes lies within the vector or is one past its end |
| NeighborList.Upsert | src/dynamic/adListPerChunk.h:37-66 | the one-pass scan (same id first, else the first deleted slot remembered on the way, else push back) computes `Upserted` |
| NeighborList.Overwrite | src/dynamic/adList.h:99-115 | the scan of `adList` (same id, else push back) computes `Overwritten` |
| NeighborList.UpsertedWrites | src/dynamic/adListPerChunk.h:37-66 | the new neighbour lands at the chosen slot, every other entry is kept, and the vector grows only when it held neither the id nor a deleted entry |
| NeighborList.UpsertSlotChoice | src/dynamic/adListPerChunk.h:42-59 | the slot is the first entry with the id when there is one, else the first deleted (-1) entry when there is one, else the end |
| NeighborList.UpsertKeepsDistinct | src/dynamic/adListPerChunk.h:37-66 | upserting a real neighbour into a vector without duplicate ids keeps it so, holds the id afterwards, and keeps every other real neighbour |
| NeighborList.UpsertIdempotent | src/dynamic/adListPerChunk.h:37-66 | upserting the same neighbour twice is upserting it once |
| NeighborList.OverwrittenWrites | src/dynamic/adList.h:99-115 | `adList`'s insert holds the id afterwards at one place; a missing id is appended, never put in a deleted slot |
| NeighborList.OverwriteKeepsDistinct | src/dynamic/adList.h:99-115 | `adList`'s insert keeps ids distinct and every earlier neighbour |
| NeighborList.UpsertedWithoutHoles | src/dynamic/adListPerChunk.h:49-59 | with no deleted entry the per-chunk upsert and `adList`'s insert agree |
| NeighborList.FirstWithDistinct | src/dynamic/adList.h:100-110 | without duplicate ids an entry is the first with its id |
| NeighborList.HasConcat | src/dynamic/adList.h:100-110 | a concatenation holds an id exactly when one of its parts does |
| NeighborList.LengthCountsNeighbours | src/dynamic/adList.h:160-164 | a vector's size is at least the number of distinct real ids it holds, and equals it when no id repeats and no entry is the free slot -1 |
| NeighborList.UpdateInside | src/dynamic/adListPerChunk.h:57 | writing entry k of a middle part is writing entry |a| + k of the whole |
| AdList.BatchStep | src/dynamic/adList.h:138-148 | the batch state after edge i is the state after the edges before it, with edge i's source side and then its destination side applied |
| AdList.AfterEndShape | src/dynamic/adList.h:31-82 | one side of one edge keeps one entry per vertex in every per-vertex sequence, adds a vertex exactly for a new endpoint and always one edge end |
| AdList.BatchShape | src/dynamic/adList.h:135-149 | after a batch the per-vertex sequences still agree in length, `num_nodes` grew by one per new endpoint and `num_edges` by two per edge |
| AdList.KeepsTrans | src/dynamic/adList.h:135-149 | keeping every visible neighbour and raised flag composes over two steps |
| AdList.ExistsFlags | src/dynamic/adList.h:31-50 | `vertexExists` touches no vector, flags a known endpoint in place or appends a raised flag for a new one, and keeps every raised flag |
| AdList.ExistingVertexSees | src/dynamic/adList.h:84-133 | for a known endpoint, overwriting keeps ids distinct and every visible neighbour, and makes the neighbour visible on the side it belongs to |
| AdList.NewVertexSees | src/dynamic/adList.h:52-82 | a new endpoint's vectors are appended at its own id: nothing visible is lost and the neighbour becomes visible on its side |
| AdList.AfterEndSees | src/dynamic/adList.h:138-147 | one side of an edge whose endpoint is numbered as `update` expects keeps ids distinct and what was visible, records the neighbour and flags the endpoint |
| AdList.KeepsSees | src/dynamic/adList.h:135-149 | a visible edge with flagged endpoints stays so along steps that keep everything |
| AdList.SeesAllSnoc | src/dynamic/adList.h:135-149 | edges visible before the last edge remain visible after it |
| AdList.NumberedInit | src/dynamic/adList.h:135-149 | a numbered batch's prefix is numbered, and its last edge is numbered from the vertex count the prefix reaches |
| AdList.EdgeSees | src/dynamic/adList.h:138-147 | after both sides of one numbered edge the edge is visible from both ends and both endpoints are flagged, with nothing lost |
| AdList.BatchSees | src/dynamic/adList.h:135-149 | after a batch whose ids arrive in order every batch edge is visible from both ends, both its endpoints are flagged, nothing visible before is lost and no vector holds an id twice |
| AdList.AdList.constructor | src/dynamic/adList.h:27-29 | no vertex, no edge, empty vectors and flags |
| AdList.AdList.VertexExists | src/dynamic/adList.h:31-50 | returns the endpoint's exists flag; the state becomes `AfterExists` (one edge end; known: flag raised; new: one vertex and a raised flag appended) |
| AdList.AdList.UpdateForNewVertex | src/dynamic/adList.h:52-82 | the state becomes `AfterNewVertex`: `property` -1 appended, the vector on the edge's side holds just the neighbour, the other side (directed) an empty vector |
| AdList.AdList.UpdateForExistingVertex | src/dynamic/adList.h:84-133 | the state becomes `AfterExistingVertex`: the neighbour overwritten or appended in the endpoint's out- or in-vector |
| AdList.AdList.UpdateEnd | src/dynamic/adList.h:140-142 | one side of an edge: `vertexExists`, then the new- or existing-vertex update |
| AdList.AdList.UpdateEdge | src/dynamic/adList.h:138-148 | source side, then destination side; one vertex per new endpoint |
| AdList.AdList.Update | src/dynamic/adList.h:135-149 | the state after `update(el)` is `Batch` of the old state, the properties of which `BatchShape` and `BatchSees` state |
| AdList.AdList.OutDegree | src/dynamic/adList.h:160-164 | `out_degree(n)` is the size of n's out-vector: at least the number of distinct real neighbour ids in the vector, and exactly that number when the vector holds no duplicate id and no free-slot -1 |
| AdList.AdList.InDegree | src/dynamic/adList.h:151-158 | directed: the same count for n's in-vector; undirected: the out-degree |
| AdListShared.SidesStep | src/dynamic/adListShared.h:172-184 | edge i adds itself to the out-side upserts and its reverse to the out-side (undirected) or in-side (directed) |
| AdListShared.AppliedSidesStep | src/dynamic/adListShared.h:172-184 | the vectors after edge i are those after the edges before it with edge i's sides applied |
| AdListShared.SidesBelow | src/dynamic/adListShared.h:92-165 | the upserts on both sides are batch edges or their reverses, so they index only initial vertices |
| AdListShared.SidesHoldEveryEdge | src/dynamic/adListShared.h:172-184 | every batch edge is upserted into its source's out-vector and its reverse into its destination's in-vector (directed) or out-vector (undirected) |
| AdListShared.EdgeSides | src/dynamic/adListShared.h:176-183 | the source side's upsert followed by the destination side's is the batch fold over that one edge |
| AdListShared.Shared.constructor | src/dynamic/adListShared.h:41-59 | `property` -1, `affected` false and empty in- and out-vectors for the N initial vertices; no counted vertex or edge |
| AdListShared.Shared.ProcessMetaData | src/dynamic/adListShared.h:61-90 | the endpoint is flagged, one edge end counted, one vertex counted when the endpoint did not exist |
| AdListShared.Shared.UpdateForExistingVertex | src/dynamic/adListShared.h:92-165 | the source side upserts the destination into the source's out-vector; the destination side upserts the source into the destination's out-vector (undirected) or in-vector (directed); nothing else changes |
| AdListShared.Shared.Update | src/dynamic/adListShared.h:167-185 | flags and counters as for every container; the out- and in-vectors receive exactly the batch's out- and in-side upserts in order |
| AdListShared.Shared.UpdateEdge | src/dynamic/adListShared.h:176-183 | one edge: both endpoints flagged, two edge ends, a vertex per new endpoint, and its two upserts |
| AdListShared.UpdateHoldsEveryEdge | src/dynamic/adListShared.h:167-185 | after a batch on vectors without duplicate ids each edge is visible from both ends and the vectors still hold no duplicate ids |
| AdListShared.Shared.OutDegree | src/dynamic/adListShared.h:198-203 | `out_degree(n)` is the size of n's out-vector: at least the number of distinct real neighbour ids in the vector, and exactly that number when the vector holds no duplicate id and no free-slot -1 |
| AdListShared.Shared.InDegree | src/dynamic/adListShared.h:187-196 | directed: the same count for n's in-vector; undirected: the out-degree |
| Stinger.NewBlockEmpty | src/dynamic/stinger.h:39-40 | a fresh `stinger_eb(n)` is a valid empty block of vertex n (every slot the default `stinger_edge()`, mark -1) and a valid one-block chain listing nothing |
| Stinger.EdgeFor | src/dynamic/stinger.h:22-28 | `stinger_edge(e, source)`: the source side records the destination, the destination side the source, both with e's weight and `timeFirst` 0 |
| Stinger.NewBlock | src/dynamic/stinger.h:39-40 | `stinger_eb(n)` is a valid block of n that lists no neighbour |
| Stinger.UpdateEdgeData | src/dynamic/stinger.cc:34-53 | `update_edge_data` touches slot `index` only: it always takes weight w; it takes neighbour n and the block counts one more edge exactly when the slot was free or at or above the high-water mark, which is when a new edge is reported; the mark then rises past the slot |
| Stinger.LiveAppend | src/dynamic/stinger.cc:95-105 | the neighbours of a chain split into those of its front and its back, in chain order |
| Stinger.AbsentFromChain | src/dynamic/stinger.cc:95-105 | a neighbour no block lists is not in the chain's list |
| Stinger.LiveLength | src/dynamic/stinger.h:34 | a chain lists as many neighbours as the sum of its blocks' `numEdges` |
| Stinger.ChainReal | src/dynamic/stinger.cc:41-50 | a valid chain never lists the free-slot id -1 |
| Stinger.NotInChain | src/dynamic/stinger.cc:95-105 | when the first pass finds d in no live slot, the chain's list does not hold d |
| Stinger.LiveAround | src/dynamic/stinger.cc:115-155 | block i's neighbours sit in the chain's list right after those of the blocks before it |
| Stinger.RewriteSlot | src/dynamic/stinger.cc:34-53 | `update_edge_data` on a live slot with its own neighbour changes only that entry's weight and registers no new edge |
| Stinger.LiveAt | src/dynamic/stinger.cc:95-105 | entry k of block i is entry |Live(c[..i])| + k of the chain's list, and changing that slot alone changes that entry alone |
| Stinger.FoundAt | src/dynamic/stinger.cc:98-103 | re-inserting a neighbour found in a live slot rewrites its weight only: no new edge, the chain stays valid, and its list is the overwrite of the old list |
| Stinger.ReplaceBlock | src/dynamic/stinger.cc:115-155 | replacing a block by a valid one keeps the chain valid |
| Stinger.ClaimTail | src/dynamic/stinger.cc:128-139 | a missing neighbour with a free tail slot lands in the tail's first free slot as a new edge, appended to the chain's list, the chain still valid |
| Stinger.AppendBlock | src/dynamic/stinger.cc:159-172 | a missing neighbour with every block full goes into slot 0 of a new tail block: the chain stays valid and its list grows by that neighbour at the end |
| Stinger.FindNeighbor | src/dynamic/stinger.cc:95-105 | the first pass finds a live slot holding d, or establishes that no live slot of any block holds it |
| Stinger.FindFreeSlot | src/dynamic/stinger.cc:112-155 | the second pass, on a valid chain without d, finds a free slot exactly when the tail is not full, and then it is the tail's slot `numEdges` |
| Stinger.SearchAndInsertEdge | src/dynamic/stinger.cc:87-179 | the chain stays valid and lists the old list with the neighbour overwritten in place or appended; `added` holds exactly when the neighbour was missing |
| Stinger.OutLists | src/dynamic/stinger.h:84 | one out-neighbour list per vertex, the neighbours of its out-chain |
| Stinger.InLists | src/dynamic/stinger.h:84 | one in-neighbour list per vertex, the neighbours of its in-chain |
| Stinger.InitialVertex | src/dynamic/stinger.cc:17-22 | a vertex as the constructor makes it is valid and lists no neighbour |
| Stinger.InsertCounts | src/dynamic/stinger.cc:41-50 | on a chain without deleted entries the new list is `adListShared`'s upsert, and the degree counter, bumped for a new edge, still counts the list |
| Stinger.InsertIntoVertex | src/dynamic/stinger.cc:181-195 | the insertion into the vertex's out-chain (source side, or undirected) or in-chain upserts the neighbour there, leaves the other chain, and keeps the vertex valid |
| Stinger.ListsAfterSet | src/dynamic/stinger.cc:185 | replacing vertex n changes entry n of both list views and nothing else |
| Stinger.VerticesAfterSet | src/dynamic/stinger.cc:185 | replacing a vertex by a valid one keeps every vertex valid |
| Stinger.Stinger.constructor | src/dynamic/stinger.cc:7-23 | `property` -1, `affected` false, N vertices each with an empty out-block and, directed, an empty in-block; every list empty |
| Stinger.Stinger.ProcessMetaData | src/dynamic/stinger.cc:55-85 | the endpoint is flagged, one edge end counted, one vertex when the endpoint did not exist |
| Stinger.Stinger.UpdateForVertex | src/dynamic/stinger.cc:181-195 | the source side upserts into the source's out-chain, the destination side into the destination's out-chain (undirected) or in-chain (directed); degree counters keep counting |
| Stinger.Stinger.UpdateEdge | src/dynamic/stinger.cc:200-208 | one edge: both endpoints flagged, two edge ends, a vertex per new endpoint, and its two upserts on the chains |
| Stinger.Stinger.Update | src/dynamic/stinger.cc:197-209 | flags and counters as for every container; read as lists, the chains receive exactly what `adListShared`'s vectors receive, weights kept |
| Stinger.Stinger.OutDegree | src/dynamic/stinger.cc:217-220 | the out-degree counter equals the number of out-neighbours, which are distinct and real, and the sum of `numEdges` over the out-chain |
| Stinger.Stinger.InDegree | src/dynamic/stinger.cc:211-215 | directed: the same for the in-chain; undirected: the out-degree |
| Stinger.ChainCounts | src/dynamic/stinger.cc:34-53 | a valid chain lists the sum of its blocks' edge counts of neighbours, distinct and never -1 |
| Traversal.NeighborhoodsSeeEdge | src/dynamic/traversal.h:484-497 | an `adList` edge is visible from both ends exactly when `out_neigh` of its source holds its destination and `in_neigh` of its destination holds its source |
| Traversal.InNeigh | src/dynamic/traversal.h:484-491 | `in_neigh(n)` reads in-storage exactly when the graph is directed; undirected it is `out_neigh(n)` |
| Traversal.OutNeigh | src/dynamic/traversal.h:493-497 | `out_neigh(n)` reads n's out-storage whatever the graph |
| Traversal.SharedNeighborhoodsSeeBatch | src/dynamic/traversal.h:484-497 | after an `adListShared` batch, `out_neigh` of each edge's source holds its destination and `in_neigh` of its destination holds its source, directed or not |
| Traversal.VecBegin | src/dynamic/traversal.h:35-45 | the constructor's cursor is null for an empty vector and entry 0 otherwise; either way the whole vector is still to come |
| Traversal.VecNext | src/dynamic/traversal.h:51-66 | `++` past the last entry gives null, else the next entry; what remains loses exactly the current entry |
| Traversal.AdListIter.List | src/dynamic/traversal.h:35-45 | the vector the iterator walks is the one its neighbourhood names, and its length is the degree the container reports |
| Traversal.AdListIter.constructor | src/dynamic/traversal.h:35-45 | the iterator starts with the whole vector still to come |
| Traversal.AdListIter.Increment | src/dynamic/traversal.h:51-66 | `++` moves the cursor as `VecNext` says and drops the first neighbour still to come |
| Traversal.AdListIter.Current | src/dynamic/traversal.h:85-87 | `operator*` is the id of the first neighbour still to come |
| Traversal.AdListIter.ExtractWeight | src/dynamic/traversal.h:89-91 | `extractWeight` is the weight of the first neighbour still to come |
| Traversal.AdListIter.NotEqual | src/dynamic/traversal.h:47-49 | against `end()`, `!=` holds exactly while some neighbour is still to come |
| Traversal.AdListEnd | src/dynamic/traversal.h:456-460 | `end()` is the `begin()` iterator with a null cursor: nothing still to come |
| Traversal.SharedIter.List | src/dynamic/traversal.h:103-113 | the vector the iterator walks is the one its neighbourhood names, and its length is the degree the container reports |
| Traversal.SharedIter.constructor | src/dynamic/traversal.h:103-113 | the iterator starts with the whole vector still to come |
| Traversal.SharedIter.Increment | src/dynamic/traversal.h:119-134 | `++` moves the cursor as `VecNext` says and drops the first neighbour still to come |
| Traversal.SharedIter.Current | src/dynamic/traversal.h:153-155 | `operator*` is the id of the first neighbour still to come |
| Traversal.SharedIter.ExtractWeight | src/dynamic/traversal.h:157-159 | `extractWeight` is the weight of the first neighbour still to come |
| Traversal.SharedIter.NotEqual | src/dynamic/traversal.h:115-117 | against `end()`, `!=` holds exactly while some neighbour is still to come |
| Traversal.ChunkedIter.List | src/dynamic/traversal.h:272-286 | the vector the iterator walks is the one its neighbourhood names (entry `hash_within_chunk(n)` of partition `pt_hash(n)`), and its length is the degree the container reports |
| Traversal.ChunkedIter.constructor | src/dynamic/traversal.h:272-286 | the iterator starts with the whole vector still to come, at partition `pt_hash(n)` and index `hash_within_chunk(n)` |
| Traversal.ChunkedIter.Increment | src/dynamic/traversal.h:292-309 | `++` moves the cursor as `VecNext` says and drops the first neighbour still to come |
| Traversal.ChunkedIter.Current | src/dynamic/traversal.h:330-332 | `operator*` is the id of the first neighbour still to come |
| Traversal.ChunkedIter.ExtractWeight | src/dynamic/traversal.h:334-336 | `extractWeight` is the weight of the first neighbour still to come |
| Traversal.ChunkedIter.NotEqual | src/dynamic/traversal.h:288-290 | against `end()`, `!=` holds exactly while some neighbour is still to come |
| Traversal.LiveFrom | src/dynamic/traversal.h:202-223 | a chain from block j lists block j's neighbours, then those of the blocks after it |
| Traversal.StRestUnfold | src/dynamic/traversal.h:202-223 | one walk step yields the slot under the cursor, then continues in the same block, in slot 0 of the next block, or stops at the tail's last edge |
| Traversal.StepWithin | src/dynamic/traversal.h:204-207 | inside a block, the walk from slot k yields the rest of the block and then every later block |
| Traversal.Regroup | src/dynamic/traversal.h:204-207 | entry k of a block, then the block after k, then the rest, is the block from k on, then the rest |
| Traversal.StepAcross | src/dynamic/traversal.h:209-215 | from a block's last edge the walk yields that edge, then everything from slot 0 of the next block |
| Traversal.StepLast | src/dynamic/traversal.h:216-219 | the tail block's remaining edges are the last thing the walk yields |
| Traversal.StRestFrom | src/dynamic/traversal.h:202-223 | from slot k of block j the iterator yields the rest of block j and then every later block |
| Traversal.StRestStep | src/dynamic/traversal.h:202-223 | one `++` from a non-null cursor stays in the chain and drops the first neighbour still to come |
| Traversal.StRestHead | src/dynamic/traversal.h:248-255 | the first neighbour still to come is the neighbour and weight of the slot under the cursor |
| Traversal.StBegin | src/dynamic/traversal.h:178-196 | the constructor starts in the head block, at a valid position of a walkable chain, with a null cursor exactly when the head block holds no edge |
| Traversal.StNext | src/dynamic/traversal.h:202-223 | `++` from a valid non-null cursor gives a valid position in the same or the next block, null exactly after the tail block's last edge |
| Traversal.ChainWalkable | src/dynamic/stinger.cc:87-179 | a chain as insertion leaves it holds no empty block after the head, so the iterator can walk it |
| Traversal.StIterationYieldsChain | src/dynamic/traversal.h:178-255 | from `begin()` to a null cursor the stinger iterator yields exactly the chain's neighbours in block and slot order, none of them -1, so the dereference's assertion holds |
| Traversal.StingerIter.ChainIsList | src/dynamic/traversal.h:181-195 | the chain walked is a valid chain listing the vertex's neighbours in the requested direction |
| Traversal.StingerIter.BeginYieldsList | src/dynamic/traversal.h:178-196 | walking from `begin()` yields the vertex's neighbour list, as many neighbours as the degree the container reports |
| Traversal.StingerIter.constructor | src/dynamic/traversal.h:178-196 | the iterator starts at the head block's slot 0 (null when that block is empty) with the vertex's whole neighbour list still to come, as many as its degree |
| Traversal.StingerIter.Increment | src/dynamic/traversal.h:202-223 | `++` moves to the next slot, to slot 0 of the next block, or to null at the tail, dropping the first neighbour still to come |
| Traversal.StingerIter.Current | src/dynamic/traversal.h:248-251 | `operator*` is the first neighbour still to come, and never -1 |
| Traversal.StingerIter.ExtractWeight | src/dynamic/traversal.h:253-255 | `extractWeight` is the weight of the first neighbour still to come |
| Traversal.StingerIter.NotEqual | src/dynamic/traversal.h:198-200 | against `end()`, `!=` holds exactly while some neighbour is still to come |
| Traversal.StingerEnd | src/dynamic/traversal.h:456-460 | `end()` on a stinger is the `begin()` iterator with a null cursor: nothing still to come |
| Traversal.PartitionOf | src/dynamic/traversal.h:362-368 | `set_begin` reads in-partition `pt_hash(src)` when `in`, out-partition `pt_hash(src)` otherwise |
| Traversal.DarhhIter.constructor | src/dynamic/traversal.h:473 | a fresh iterator has no store and both cursors null |
| Traversal.DarhhIter.SetBegin | src/dynamic/traversal.h:359-374 | `set_begin` picks partition `pt_hash(src)`, uses the low store's iterator exactly when the low store reports a non-zero degree for src, and the high store's `begin(src)` otherwise |
| Traversal.DarhhIter.Start | src/dynamic/traversal.h:369-373 | the low-store iterator is `begin(src)` when its degree is non-zero, else the high-store one; the other iterator is left as it was |
| Traversal.DarhhIter.SetEnd | src/dynamic/traversal.h:376-381 | `set_end` makes both cursors null |
| Traversal.DarhhIter.Increment | src/dynamic/traversal.h:404-412 | `++` advances the sub-iterator in use, as its store's `++` does, and only that one |
| Traversal.DarhhIter.NotEqual | src/dynamic/traversal.h:395-402 | against `end()`, `!=` holds exactly while the cursor of the sub-iterator in use is not null |
| Traversal.DarhhBegin | src/dynamic/traversal.h:472-476 | `begin()` is a fresh iterator on which `set_begin` has run |
| Traversal.DarhhEnd | src/dynamic/traversal.h:477-481 | `end()` is a fresh iterator with both cursors null |
| Numerals.DigitValue | src/dynamic/parser.cc:92 | a digit's value is below 10 |
| Numerals.DigitChar | src/dynamic/fileReader.h:26 | the digit character for a value below 10 is a digit whose value is that value |
| Numerals.DigitPrefix | src/dynamic/fileReader.h:26 | the longest run of digits at the front: all digits, a prefix, followed by a non-digit or the end |
| Numerals.SkipSpace | src/dynamic/fileReader.h:26 | what is left after the leading white space is a suffix that starts with no white space |
| Numerals.Scan | src/dynamic/parser.cc:92 | the numeral both conversions read consists of digits only |
| Numerals.Stol | src/dynamic/fileReader.h:26-27 | `stol` yields the value `atoi` reads when there is a digit and the value fits in 64 bits, and throws (None) exactly otherwise |
| Numerals.Digits | src/dynamic/fileReader.h:26-27 | the decimal digits of a number are a non-empty run of digits |
| Numerals.Show | src/dynamic/fileReader.h:20-40 | a rendered integer is never empty |
| Numerals.ValueOfDigits | src/dynamic/fileReader.h:26-27 | the digits of n read back as n |
| Numerals.DigitPrefixOfDigits | src/dynamic/fileReader.h:26-27 | a run of digits followed by a non-digit is the longest digit prefix |
| Numerals.ScanDigits | src/dynamic/fileReader.h:26-27 | a number's digits followed by a non-digit scan as a non-negative numeral with those digits |
| Numerals.ScanNegative | src/dynamic/fileReader.h:26-27 | the same after a '-' scan as a negative numeral |
| Numerals.ScanShow | src/dynamic/parser.cc:92-130 | `atoi` reads back every rendered integer, whatever non-digit text follows |
| Numerals.StolShow | src/dynamic/fileReader.h:26-33 | `stol` reads back every rendered 64-bit integer, whatever non-digit text follows |
| Numerals.StolShowAlone | src/dynamic/fileReader.h:26-33 | `stol` reads back every rendered 64-bit integer on its own |
| Numerals.AtoiWithoutDigits | src/dynamic/parser.cc:96-104 | text with no digit after the sign gives `atoi` 0 and makes `stol` throw |
| FileReader.IndexOf | src/dynamic/fileReader.h:26 | the position of the first delimiter, or none exactly when there is none |
| FileReader.GetLine | src/dynamic/fileReader.h:26-32 | a successful `getline` returns a field without the delimiter |
| FileReader.ConvertCSVLineIntoEdge | src/dynamic/fileReader.h:20-40 | a converted line is an edge with no batch and both exists flags false, with weight -1 when unweighted |
| FileReader.ShowHasNoComma | src/dynamic/fileReader.h:26-33 | a rendered number holds no comma, so it is one field |
| FileReader.IndexOfFirst | src/dynamic/fileReader.h:26 | in text without the delimiter followed by the delimiter, that delimiter is the first |
| FileReader.GetLineCsv | src/dynamic/fileReader.h:26 | `getline` on a line of fields returns the first field and leaves the others, or end-of-file after the last |
| FileReader.CsvField | src/dynamic/fileReader.h:26-27 | the first field of a line, read by `getline` and converted by `stol`, is the number written there |
| FileReader.ConvertFourFields | src/dynamic/fileReader.h:20-40 | a four-field line becomes the edge (field 1, field 2), with field 4 as weight when weighted; the time stamp is skipped |
| FileReader.ConvertThreeFieldsWeighted | src/dynamic/fileReader.h:28-33 | a weighted read of a three-field line does not fail: the time stamp becomes the weight |
| FileReader.AssignIdMeaning | src/dynamic/fileReader.h:43-67 | a mapping is found exactly when the id was seen, and then nothing changes; an unseen id gets the id after the last; the id is recorded and no mapping moves |
| FileReader.AssignIdFresh | src/dynamic/fileReader.h:60-65 | in a dense table an unseen id gets the number of ids seen so far: logical ids follow first-seen order |
| FileReader.AssignIdKeepsDense | src/dynamic/fileReader.h:43-67 | the logical ids stay exactly 0..last, one per external id |
| FileReader.AssignIdStable | src/dynamic/fileReader.h:52-58 | an external id keeps its logical id across later assignments |
| FileReader.LogicalIds.constructor | src/dynamic/fileReader.h:43-50 | the table starts empty, which is dense |
| FileReader.LogicalIds.AssignLogicalID | src/dynamic/fileReader.h:43-67 | the table, the id written back and the flag are those of `AssignId` |
| FileReader.Record | src/dynamic/fileReader.h:76-77 | a line is skipped exactly when empty, throws exactly when non-empty and `convertCSVLineIntoEdge` rejects it, and otherwise is the edge it converts to |
| FileReader.Records | src/dynamic/fileReader.h:75-77 | one record per line |
| FileReader.RecordsAt | src/dynamic/fileReader.h:76-77 | record i is line i as the loop sees it: skipped when empty, converted or thrown on otherwise |
| FileReader.ReadFrom | src/dynamic/fileReader.h:75-85 | the loop moves forward and never past the end of the input; when it throws, the line just read is malformed |
| FileReader.StampMeaning | src/dynamic/fileReader.h:78-80 | a stamped edge carries the batch id and its endpoints' logical ids, and the table keeps its mappings |
| FileReader.StampKeepsDense | src/dynamic/fileReader.h:78-79 | mapping both endpoints keeps the table dense |
| FileReader.MappedFromCons | src/dynamic/fileReader.h:81 | a mapped edge in front of mapped edges is a mapped batch |
| FileReader.StampThen | src/dynamic/fileReader.h:78-81 | a stamped edge followed by what the rest of the loop reads is mapped through the final table, which extends the first |
| FileReader.PresentCons | src/dynamic/fileReader.h:76 | the non-empty lines of a range are the first line if non-empty, then those of the rest |
| FileReader.ReadFromMeaning | src/dynamic/fileReader.h:75-85 | a batch holds the converted lines read, in order, each mapped to logical ids and stamped; the table keeps its earlier mappings, also after a throw |
| FileReader.ReadFromThrows | src/dynamic/fileReader.h:75-77 | the read throws at the first malformed line it reaches: no line passed over before it is malformed, nor any line of a batch that completes |
| FileReader.WellFormedNeverThrows | src/dynamic/fileReader.h:75-77 | when every non-empty line converts, a batch read never throws |
| FileReader.ReadFromKeepsDense | src/dynamic/fileReader.h:75-85 | the table a batch leaves is still dense |
| FileReader.ReadFromBound | src/dynamic/fileReader.h:82-83 | a batch that did not throw holds at most `batchSize - count` edges when that is positive, and reads to the end of the input unless it stopped at exactly `batchSize` |
| FileReader.ReadBatchFromCSV | src/dynamic/fileReader.h:70-87 | on any input, whether it throws, the edges, the stream position and the table are those `ReadFrom` describes |
| FileReader.ReadLine | src/dynamic/fileReader.h:76-81 | an empty line reads nothing and a malformed one throws, both leaving the table; any other is converted and stamped |
| FileReader.JoinedCons | src/dynamic/fileReader.h:81 | pushing an edge then reading on equals reading on with the edge in front; a throw loses both |
| FileReader.StampEdge | src/dynamic/fileReader.h:78-80 | source mapped, then destination, then the batch stamped: the result of `Stamp` |
| FileReader.ReadFromAt | src/dynamic/fileReader.h:75-84 | one loop step: an empty line is skipped, a malformed one throws; any other is stamped and ends the batch when it makes `batchSize`, else the loop goes on |
| FileReader.ReadBatchMeaning | src/dynamic/fileReader.h:70-87 | read from the start, a batch that did not throw holds at most `batchSize` edges when that is positive, ends the input unless full, and holds the converted lines read, mapped and stamped; thrown or not, the table is still dense and extends the old one |
| Parser.LastIndexOf | src/dynamic/parser.cc:12 | `rfind`: the position of the last occurrence, or none exactly when there is none |
| Parser.GetSuffix | src/dynamic/parser.cc:10-19 | a name has a suffix exactly when it holds a '.'; the suffix is the text from the last '.' on (no exit case is a value here) |
| Parser.ExitSticks | src/dynamic/parser.cc:80-146 | once an option exits, the options after it are never looked at |
| Parser.Parse | src/dynamic/parser.cc:76-186 | `parse` returns the outcome of the option loop followed by the checks after it |
| Parser.Switch | src/dynamic/parser.cc:81-145 | one pass of the switch computes `OptionStep`: each case sets its field and flag bit, or exits |
| Parser.SeenMeans | src/dynamic/parser.cc:80 | an option is seen exactly when some pair `getopt` returned has its name |
| Parser.SetFlag | src/dynamic/parser.cc:87-107 | `flags |= bit` sets that bit, leaves the others, and keeps the high bits clear |
| Parser.StepFields | src/dynamic/parser.cc:81-145 | one option changes only its own field, after the check its case makes |
| Parser.StepConsistent | src/dynamic/parser.cc:81-145 | one option keeps names supported, the file a ".csv" once `-f` was given and only the four flag bits |
| Parser.StepFlag | src/dynamic/parser.cc:87-107 | one option sets exactly its own flag bit, if it has one |
| Parser.ApplyAllMeaning | src/dynamic/parser.cc:80-146 | after a loop that did not exit, the arguments are consistent and a flag bit is set exactly when its option was seen |
| Parser.ParseAccepts | src/dynamic/parser.cc:76-186 | `parse` returns exactly when -f, -b, -w and -d were all given, no positional argument is left, the node count is not 0 and a weighted algorithm runs on a weighted graph; the file then ends in ".csv" and both names are supported |
| Parser.ValidateMeaning | src/dynamic/parser.cc:147-184 | the checks after the loop pass exactly when all four flags are set and the rest holds, and then change nothing |
| Parser.Validate | src/dynamic/parser.cc:147-184 | the checks after the loop pass only with no positional argument left and a node count, and then return the arguments unchanged; they exit with 0 exactly when a required flag or the no-positional check fails, and with -1 otherwise |
| Parser.ApplyOption | src/dynamic/parser.cc:81-145 | one option with `atoi` of its argument: `-h` exits with 0, every other exit is -1, and a consistent argument set stays consistent |
| Parser.StepExits | src/dynamic/parser.cc:81-145 | only `-h` exits with status 0; every other exit of the switch is -1 |
| Parser.SupportedAlg | src/dynamic/parser.cc:21-33 | the default algorithm and every algorithm that needs a weighted graph are among the supported ones |
| Parser.SupportedDataStruc | src/dynamic/parser.cc:35-38 | the default container `adList` is supported, and no supported name holds a '.' |
| Parser.AllFlags | src/dynamic/parser.cc:148-163 | with the four flag bits set and no other, `flags` is 15 |
| Parser.SwitchArguments | src/dynamic/parser.cc:94-117 | `-w` and `-d` accept exactly 0 and 1, setting the flag to whether it was 1; `-h` always exits with status 0 |
| Parser.CsvSuffix | src/dynamic/parser.cc:82-86 | `-f` accepts a name exactly when it ends in ".csv" |
| SourcePicker.TrialsMeaning | src/dynamic/source_picker_dynamic.h:28-32 | the do-while draws at least once and at most `num_nodes - trials` times, returns its last draw, every earlier draw hit out-degree 0, and the last has non-zero out-degree unless the trials ran out |
| SourcePicker.PickMeaning | src/dynamic/source_picker_dynamic.h:21-36 | a given source comes back with no draw; an empty graph gives -1 with no draw; otherwise at most `num_nodes` draws, and a result other than -1 is the last draw and has non-zero out-degree |
| SourcePicker.PickInRange | src/dynamic/source_picker_dynamic.h:18 | every draw lies in the distribution's range, so a picked vertex does too |
| SourcePicker.PickDiscardsLastDraw | src/dynamic/source_picker_dynamic.h:32-34 | when only the `num_nodes`-th draw has non-zero out-degree, the as-written picker still returns -1, the intended one that vertex |
| SourcePicker.PickDiscardsOnlyVertex | src/dynamic/source_picker_dynamic.h:34 | on a one-vertex graph whose vertex has an out-edge, the as-written picker returns -1 and the intended one vertex 0 |
| SourcePicker.PickFixedMeaning | src/dynamic/source_picker_dynamic.h:21-36 | the intended picker returns -1 exactly when all `num_nodes` draws hit out-degree 0, and otherwise a drawn vertex of non-zero out-degree |
| SourcePicker.DynamicSourcePicker.constructor | src/dynamic/source_picker_dynamic.h:14-19 | the picker keeps the given source, the range [0, num_nodes) and the generator at its start |
| SourcePicker.DynamicSourcePicker.PickNext | src/dynamic/source_picker_dynamic.h:21-36 | the result and the generator position are those of `Pick` |
| StaticGraph.SingleNodeWeight | src/static/static_graph.h:33 | `NodeWeight(v)` has weight 1 |
| StaticGraph.LessIsStrictTotalOrder | src/static/static_graph.h:36-38 | `operator<` (by node, then by weight) is irreflexive and transitive, and two node-weights are unordered exactly when they are equal |
| StaticGraph.SameIgnoresWeight | src/static/static_graph.h:40-48 | `operator==` compares nodes only: it agrees with comparison against the node id, and holds between node-weights that `operator<` still orders by weight |
| StaticGraph.TruncDiv | src/static/static_graph.h:124 | C++ division truncates toward zero: the quotient for a non-negative dividend, the negated quotient of the negation otherwise |
| StaticGraph.DegreeSumIsSpan | src/static/static_graph.h:187-189 | the out-degrees of the first k vertices sum to `index[k] - index[0]` |
| StaticGraph.EdgesDirectedIsDegreeSum | src/static/static_graph.h:120-133 | directed: `num_edges_directed` is the sum of all out-degrees; undirected: twice the halved span, which is the degree sum when it is even and one less when it is odd |
| StaticGraph.OffsetsMeaning | src/static/static_graph.h:367-375 | `VertexOffsets` has num_nodes+1 entries, starts at 0, its consecutive differences are the degrees, and it ends at the degree sum |
| StaticGraph.ShiftOffsets | src/static/static_graph.h:358-375 | `GenIndex` of the offsets with the old base gives back the index: the two are inverse |
| StaticGraph.Buckets | src/static/static_graph.h:264-266 | one cache-line bucket per vertex |
| StaticGraph.Find | src/static/static_graph.h:269-276 | the scan stops at the first key equal to the bucket, or past the end when there is none |
| StaticGraph.HistogramOf | src/static/static_graph.h:260-287 | the histogram has one count per key |
| StaticGraph.SumBump | src/static/static_graph.h:272 | incrementing one count adds one to the total |
| StaticGraph.TallyCounts | src/static/static_graph.h:268-286 | tallying one more bucket keeps keys distinct and every count equal to the bucket's multiplicity |
| StaticGraph.TallySum | src/static/static_graph.h:268-286 | tallying one more bucket adds one to the total count |
| StaticGraph.HistogramMeaning | src/static/static_graph.h:260-295 | the histogram lists each bucket once, with its number of vertices, and the counts sum to the number of vertices |
| StaticGraph.CSRGraph.constructor | src/static/static_graph.h:116-118 | an empty graph: undirected, -1 nodes and edges, no arrays |
| StaticGraph.CSRGraph.Undirected | src/static/static_graph.h:120-125 | undirected; in- and out-storage are the same arrays; `num_edges` is half the index span, truncated |
| StaticGraph.CSRGraph.Directed | src/static/static_graph.h:127-133 | directed; the given arrays; `num_edges` is the out-index span |
| StaticGraph.CSRGraph.Move | src/static/static_graph.h:135-145 | the new graph takes every field of the other, which is left empty |
| StaticGraph.CSRGraph.MoveAssign | src/static/static_graph.h:151-169 | a self-move changes nothing; otherwise this graph takes every field of the other, which is left empty |
| StaticGraph.CSRGraph.NumEdgesDirected | src/static/static_graph.h:183-185 | for an edge count the constructors derived from the out-index, `num_edges_directed` is the number of entries the index spans, the sum of the out-degrees, directed or not |
| StaticGraph.CSRGraph.OutDegree | src/static/static_graph.h:187-189 | `out_degree(v)` is the step between v's and v+1's vertex offsets of the index |
| StaticGraph.CSRGraph.InDegree | src/static/static_graph.h:191-194 | the same for the in-index |
| StaticGraph.CSRGraph.VertexOffsets | src/static/static_graph.h:367-375 | a fresh array of num_nodes+1 offsets, each index entry minus the first, from the in- or out-index |
| StaticGraph.CSRGraph.OutDegreeHistogram | src/static/static_graph.h:260-295 | the keys and counts are the histogram of the out-degree buckets, empty for a graph without vertices |
| StaticGraph.CSRGraph.InDegreeHistogram | src/static/static_graph.h:297-330 | the same for the in-degrees |
| StaticGraph.GenIndex | src/static/static_graph.h:358-365 | a fresh index whose entry n is the base plus offset n |
| StaticGraph.DegreeHistogram | src/static/static_graph.h:264-287 | the loop over vertices computes the histogram of their buckets |
| StaticGraph.TallyStep | src/static/static_graph.h:268-286 | one vertex's step: increment the first matching key's count, or append the bucket with count 1 |

## Left out

- Concurrency is not modelled. That covers the worker threads, partition queues, mutexes and CPU pinning of `darhh` and `adListChunked`, the OpenMP loops and mutexes of `adListShared`, and stinger's `compare_and_swap`, atomic adds and full/empty-bit locks. Each is replaced by applying the edges one after the other.
- The incremental and from-scratch algorithms (PageRank, BFS, CC, SSSP, SSWP, MC) are not modelled. They are parallel frontier loops over floating-point properties.
- The dispatch code of topAlg.h and topDataStruc.cc is not modelled. It is a factory with no behaviour of its own to state.
- Printing and file I/O are not modelled. That covers builder.cc, frontEnd.cc, print.cc, dyn_traverse.h, the static graph's print and histogram-file members, and the hardware-counter instrumentation of pcmResource.
- The CSV input is a sequence of lines with a read position, not a file stream.
- `rhh_bsd::delete_elem` is not modelled. Its shift loop never advances its index, so it describes no deletion.
- `rhh_bsd::avg_cyclic_dist` is not modelled either.
- Load factors are floating-point numbers in the program and rationals (numerator and denominator) here.
- The `ceil` of a floating-point division in the `adListChunked` partition constructor is integer ceiling division here.
- `std::vector::capacity()` is modelled as the array's length.
- `std::unordered_map` is modelled as a Dafny map, and the iterators' pointers and the CSR index's pointers as positions.
- `getopt` is taken as having already split the command line into (option, argument) pairs.
- `mt19937` with `uniform_int_distribution` is a given sequence of draws.
- SourcePicker.DynamicSourcePicker.PickNext: the draw range is fixed when the picker is made. The program also fixes it at construction, through the distribution.
- `atoi` and `stol` read decimal text in the "C" locale. Locale-specific white space and the undefined behaviour of `atoi` on out-of-range input are not modelled.
- FileReader.ReadBatchFromCSV: the exception `stol` throws is modelled as the `Thrown` outcome; which exception (`invalid_argument` or `out_of_range`) and its message are not distinguished.
- Parser.Parse: the messages `parse` prints before exiting are not modelled, only the exit status.
- The 32-bit `num_trials` counter of the source picker is an unbounded integer.
- RobinHood.ProbeRun: the `for (;;)` loop is followed for at most one lap of the table, and a lap that finds no place ends as `Unfinished`. On a table whose every slot is occupied or a tombstone that no probe can claim, the program loops forever (see Findings). Whenever an empty slot exists the model finishes, which `ProbeRunFinishes` shows.
- RobinHood.Table.InsertElem: the table afterwards holds the old pairs plus the new one. This is stated exactly only when the stored keys are distinct and the probe finished; otherwise the pairs afterwards are only bounded by the old pairs plus the new one. On a key that is already stored the program replaces the value, which that bound allows but does not state.
- RobinHood.Table.InsertWithin: the same condition as for `InsertElem`. This is stated exactly only when the stored keys are distinct and the probe finished; otherwise the pairs afterwards are only bounded by the old pairs plus the new one. On a key that is already stored the program replaces the value, which that bound allows but does not state.
- HighDegree.Store.InsertElem: an existing chunk holds its old pairs plus the new one. This is stated exactly only when the stored keys are distinct and the probe finished; otherwise the pairs afterwards are only bounded by the old pairs plus the new one. On a key that is already stored the program replaces the value, which that bound allows but does not state. A chunk created by the call is stated exactly.
- HighDegree.Store.InsertEdge: the same condition as for `HighDegree.Store.InsertElem`, for the pair (destination, record) in the source's chunk.
- LowDegree.InsertEdge: the same condition as for `RobinHood.Table.InsertElem`, for the live entries. It does not restate the probe-run equation that `RobinHood.Table.InsertElem` states for the slots.
- DegreeAware.Partition.InsertLow: the partition's entries afterwards are stated exactly (the old ones plus the edge's) only when their keys are distinct; otherwise they are only bounded by that. On an edge already stored the program replaces its record, which the bound allows but does not state.
- DegreeAware.Partition.InsertHigh: the source's chunk and the partition's entries are stated exactly only when the chunk is new or the keys are distinct; otherwise they are only bounded by the old pairs or entries plus the edge's.
- DegreeAware.Partition.MigrateThenInsert: the partition's entries are stated as a whole, exactly only when their keys are distinct. Which store holds them afterwards is stated only as far as the source's low degree being 0 and the source having a chunk; the pairs of that chunk are not stated.
- DegreeAware.Partition.Insert: the partition's entries carry the condition of `InsertLow`; the high route also states the source's chunk as `InsertHigh` does.
- DegreeAware.Partition.TransferLowToHigh: the partition's entries are stated to be kept exactly only when their keys are distinct; otherwise they are only bounded by what it held.
- DegreeAware.ApplyQueue: the partition's entries afterwards are stated exactly (the old ones plus those of the queue) only when their keys are distinct; otherwise they are only bounded by that.
- DegreeAware.Darhh.ApplyAt: the same condition as for `ApplyQueue`, for the one partition that drains.
- DegreeAware.Darhh.Drain: the same condition as for `ApplyQueue`, for every partition.
- DegreeAware.Darhh.Update: the same condition as for `ApplyQueue`, for every partition and its queue.
- AdListChunked.HashWithinChunk: the program casts the 64-bit vertex id to a 32-bit `int` before dividing, at adListChunked.h lines 78, 172 and 174. The model divides unbounded integers. The two agree for ids below 2^31, which holds for every logical id of a graph with fewer than 2^31 vertices, since logical ids count from 0.
- AdListChunked.Rewritten: the same 32-bit cast, with the same range in which the model agrees.
- RobinHood.HashOf: Dafny's `%` is Euclidean, while the program's remainder on a signed key truncates (`EdgeID::operator%` at types.h lines 26-28, and the signed-to-unsigned conversion in `hash`). The two agree for non-negative keys. Every id that reaches a container is a logical id, which `FileReader.AssignIdKeepsDense` shows lies in 0..last.
- LowDegree.Origin: the same Euclidean remainder, agreeing with the program for non-negative source ids.
- LowDegree.EntriesShareOrigin: stated for every source id, with the Euclidean remainder. For a negative id the program's truncating remainder would give a different origin. Such ids never occur, for the reason given under `RobinHood.HashOf`.
- AdListPerChunk: `in_degree` and `out_degree` of the per-partition vectors return `-1*n` (adListPerChunk.h lines 26-27). They are not modelled, because they report no degree and nothing calls them; `PerChunk.Degree` models `degree(n)`, which the chunked container uses.
- DegreeAware.Partition.Insert: the two partition invariants are not proved. They are that no vertex has live entries in both stores, and that a low degree stays at most 2. Both depend on lookups finding keys, which the `origin` behaviour of `insert_elem` does not guarantee. The routing decision of every call is proved instead.
- DegreeAware.Partition.TransferLowToHigh: the program tombstones each low entry and inserts it into the high store in one loop. The model does all the tombstoning first (`TombstoneLow`) and then all the inserting (`MoveHigh`). The end state is the same, because the two stores share no state.
- DegreeAware.Darhh.constructor: the program's two loops make the out-partitions and then the in-partitions; the model makes all of them in one loop and takes the first `num_out_partitions` as the out-partitions. The partitions made are the same.
- Traversal.StingerIter.constructor: an unset `cursor_index` is taken as 0.
- The move constructor and move assignment of the static graph are modelled, but the memory they release is not.
- `abstract_data_struc.h` only declares the shared fields. It is modelled as the `DataStruc` state record.

## Findings

| source | as written | input that shows it | evidently intended | confidence | as-written member | corrected member |
|---|---|---|---|---|---|---|
| src/dynamic/rhh.h:153-157 | reviving a tombstone with the same key restores its hash but does not increment `size`, and `delete_elem` then decrements it | on an empty 4-slot table: insert key 0, delete it, insert it again, delete it again; the table holds no pair while `size` has wrapped to 2^32 - 1 | a revival counts as an insertion, so `size` stays the number of live pairs | not executed | RobinHood.SizeUnderflowExample | RobinHood.CountedSizeTracksLive |
| src/dynamic/rhh.h:148-170 | the `for (;;)` probe of `insert_elem` stops only at an empty slot, the key itself or a poorer tombstone, so a table whose slots are all live or tombstones no probe can claim loops for ever | an empty two-slot table with load factor 0.9: insert keys 0 and 2, delete both, insert key 4; `size` is 0, so the table does not double, and both tombstones sit as far from slot 0 as the probe | the insertion ends; the model stops the probe after one lap as `Unfinished`, and the probe lands whenever an empty slot exists | not executed | RobinHood.EndlessProbeExample | RobinHood.ProbeRunFinishes |
| src/dynamic/darhh_ld.h:92 | the iterator's lap test `pd == capacity` is never true, because `probe_dist` is below the capacity | insert (0, 1) and then (0, 2) into an empty two-slot low store: `++` goes from slot 1 back to slot 0 and the cursor never becomes null | stop after one lap, so that iteration visits exactly the entries `get_degree` counts | not executed | LowDegree.AsWrittenIterationCycles | LowDegree.IterationMatchesDegree |
| src/dynamic/source_picker_dynamic.h:34 | when the trial count reaches `num_nodes`, -1 is returned even if the last draw hit a vertex of non-zero out-degree | a one-vertex graph whose vertex has an out-edge: the picker returns -1 | -1 only when every draw hit a vertex of out-degree 0 | not executed | SourcePicker.PickDiscardsOnlyVertex | SourcePicker.PickFixedMeaning |
