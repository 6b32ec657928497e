/**
 * The edge-stream reader: a CSV line becomes an `Edge`
 * (`convertCSVLineIntoEdge`), every external vertex id is replaced by a
 * dense logical id handed out in first-seen order (`assignLogicalID`, over
 * the map table and the last id it assigned, both owned by the caller), and
 * a batch is read line by line until `batchSize` edges have been collected
 * or the input ends (`readBatchFromCSV`).
 *
 * The input file is a sequence of lines; where the program reads with
 * `getline` from the file stream, the model reads from the line at the
 * stream position and returns the position after the batch.
 */
module FileReader {
  import opened Types
  import N = Numerals

  // ---------------------------------------------------------------------
  // Splitting a line: `getline(ss, data, delim)` on a string stream
  // ---------------------------------------------------------------------

  /** A string stream: the characters not yet read, and whether end-of-file was hit. */
  datatype Stream = Stream(rest: string, eof: bool)

  /** What one `getline` leaves: the stream, the target string, and whether it succeeded. */
  datatype Got = Got(stream: Stream, data: string, ok: bool)

  /** The position of the first `c` in `s`, if any. */
  function IndexOf(s: string, c: char): (r: Option<nat>)
    ensures r.Some? ==> r.value < |s| && s[r.value] == c && c !in s[..r.value]
    ensures r.None? ==> c !in s
  {
    if |s| == 0 then None
    else if s[0] == c then Some(0)
    else match IndexOf(s[1..], c)
      case None => None
      case Some(i) => assert s[..i + 1] == [s[0]] + s[1..][..i]; Some(i + 1)
  }

  /**
   * `getline(ss, data, delim)`.  Once end-of-file has been hit the call
   * fails and leaves `data` as it was.  Otherwise `data` becomes the text up
   * to the next delimiter, which is consumed; when there is none, it becomes
   * the rest of the stream and end-of-file is hit (a failure if that rest
   * is empty).
   */
  function GetLine(st: Stream, delim: char, data: string): (g: Got)
    ensures g.ok ==> delim !in g.data
  {
    if st.eof then Got(st, data, false)
    else match IndexOf(st.rest, delim)
      case Some(i) => Got(Stream(st.rest[i + 1..], false), st.rest[..i], true)
      case None => Got(Stream("", true), st.rest, |st.rest| > 0)
  }

  /**
   * `convertCSVLineIntoEdge(delim, line, weighted)`: field 1 is the source,
   * field 2 the destination, field 3 (a time stamp) is skipped, and field 4
   * is the weight when the graph is weighted.  A field that `stol` cannot
   * read throws in the program; here that is `None`.
   */
  function ConvertCSVLineIntoEdge(delim: char, line: string, weighted: bool): (r: Option<Edge>)
    ensures r.Some? ==> r.value.batchId == -1 && !r.value.sourceExists && !r.value.destExists
    ensures r.Some? && !weighted ==> r.value.weight == -1
  {
    var g1 := GetLine(Stream(line, false), delim, "");
    var source := N.Stol(g1.data);
    var g2 := GetLine(g1.stream, delim, g1.data);
    var dest := N.Stol(g2.data);
    var g3 := GetLine(g2.stream, delim, g2.data);
    if source.None? || dest.None? then None
    else if weighted then
      var g4 := GetLine(g3.stream, delim, g3.data);
      var w := N.Stol(g4.data);
      if w.None? then None else Some(WeightedEdge(source.value, dest.value, w.value))
    else Some(PlainEdge(source.value, dest.value))
  }

  /** Decimal fields joined by commas, as the benchmark's input files are written. */
  function CsvLine(fields: seq<int>): (s: string)
    requires |fields| > 0
  {
    if |fields| == 1 then N.Show(fields[0]) else N.Show(fields[0]) + "," + CsvLine(fields[1..])
  }

  predicate Fits(fields: seq<int>)
  {
    forall i :: 0 <= i < |fields| ==> N.Int64Min <= fields[i] <= N.Int64Max
  }

  lemma ShowHasNoComma(n: int)
    ensures ',' !in N.Show(n)
  {
    var s := N.Show(n);
    forall i | 0 <= i < |s| ensures s[i] != ',' {
      if n < 0 && i == 0 { } else if n < 0 { assert s[i] == N.Digits(-n)[i - 1]; }
    }
  }

  /** The first `c` in `s + [c] + rest` is right after `s` when `s` has none. */
  lemma {:induction false} IndexOfFirst(s: string, c: char, rest: string)
    requires c !in s
    ensures IndexOf(s + [c] + rest, c) == Some(|s|)
  {
    if |s| > 0 {
      assert (s + [c] + rest)[1..] == s[1..] + [c] + rest;
      IndexOfFirst(s[1..], c, rest);
    }
  }

  /** One `getline` on a line of fields returns its first field. */
  lemma GetLineCsv(fields: seq<int>, data: string)
    requires |fields| > 0
    ensures var g := GetLine(Stream(CsvLine(fields), false), ',', data);
            && g.data == N.Show(fields[0])
            && g.stream == (if |fields| == 1 then Stream("", true) else Stream(CsvLine(fields[1..]), false))
  {
    var s := N.Show(fields[0]);
    ShowHasNoComma(fields[0]);
    if |fields| > 1 {
      var line := s + "," + CsvLine(fields[1..]);
      assert line[..|s|] == s && line[|s|] == ',';
      IndexOfFirst(s, ',', CsvLine(fields[1..]));
      assert line[|s| + 1..] == CsvLine(fields[1..]);
    }
  }

  /** The field `getline` returns from a line of fields is the first one, which `stol` reads back. */
  lemma CsvField(fields: seq<int>, data: string)
    requires |fields| > 0 && N.Int64Min <= fields[0] <= N.Int64Max
    ensures var g := GetLine(Stream(CsvLine(fields), false), ',', data);
            && g.data == N.Show(fields[0]) && N.Stol(g.data) == Some(fields[0])
            && g.stream == (if |fields| == 1 then Stream("", true) else Stream(CsvLine(fields[1..]), false))
  {
    GetLineCsv(fields, data);
    N.StolShowAlone(fields[0]);
  }

  /** A four-field line is read as written: the weight is the fourth field. */
  lemma ConvertFourFields(fields: seq<int>, weighted: bool)
    requires |fields| == 4 && Fits(fields)
    ensures ConvertCSVLineIntoEdge(',', CsvLine(fields), weighted)
            == Some(if weighted then WeightedEdge(fields[0], fields[1], fields[3])
                    else PlainEdge(fields[0], fields[1]))
  {
    var f1, f2, f3 := fields[1..], fields[2..], fields[3..];
    assert f1[1..] == f2 && f2[1..] == f3;
    CsvField(fields, "");
    var d1 := N.Show(fields[0]);
    CsvField(f1, d1);
    var d2 := N.Show(fields[1]);
    CsvField(f2, d2);
    CsvField(f3, N.Show(fields[2]));
  }

  /**
   * A weighted read of a line with only three fields does not fail: the
   * fourth `getline` hits end-of-file and leaves the third field (the time
   * stamp) in place, which becomes the weight.
   */
  lemma ConvertThreeFieldsWeighted(fields: seq<int>)
    requires |fields| == 3 && Fits(fields)
    ensures ConvertCSVLineIntoEdge(',', CsvLine(fields), true)
            == Some(WeightedEdge(fields[0], fields[1], fields[2]))
  {
    var f1, f2 := fields[1..], fields[2..];
    assert f1[1..] == f2;
    CsvField(fields, "");
    var d1 := N.Show(fields[0]);
    CsvField(f1, d1);
    var d2 := N.Show(fields[1]);
    CsvField(f2, d2);
  }

  // ---------------------------------------------------------------------
  // Logical ids: `assignLogicalID`
  // ---------------------------------------------------------------------

  /** The caller's map table (external id to logical id) and the last logical id it handed out. */
  datatype IdTable = IdTable(vmap: map<int, int>, last: int)

  /** What `assignLogicalID` leaves: the table, the id written back into `n`, and the returned flag. */
  datatype Assigned = Assigned(table: IdTable, id: int, found: bool)

  /**
   * `assignLogicalID(n, VMap, lastAssignedLogicalID)`: the first vertex ever
   * gets 0, a known vertex its recorded id, an unseen one the id after the
   * last; the result says whether a mapping was found.
   */
  function AssignId(t: IdTable, n: int): (r: Assigned)
  {
    if t.vmap == map[] then Assigned(IdTable(map[n := 0], 0), 0, false)
    else if n in t.vmap then Assigned(t, t.vmap[n], true)
    else Assigned(IdTable(t.vmap[n := t.last + 1], t.last + 1), t.last + 1, false)
  }

  /**
   * The logical ids in use are distinct and within 0..last, and there are
   * last + 1 of them: they are exactly 0..last, one per external id.
   */
  predicate Dense(t: IdTable)
  {
    t.vmap == map[] ||
    (&& (forall k :: k in t.vmap ==> 0 <= t.vmap[k] <= t.last)
     && |t.vmap| == t.last + 1
     && forall a, b :: a in t.vmap && b in t.vmap && t.vmap[a] == t.vmap[b] ==> a == b)
  }

  /** `u` keeps every mapping of `t`. */
  predicate Extends(u: IdTable, t: IdTable)
  {
    forall k :: k in t.vmap ==> k in u.vmap && u.vmap[k] == t.vmap[k]
  }

  /**
   * The call finds a mapping exactly when the id was seen before, and then
   * changes nothing; otherwise the id gets the next logical id in order.
   * Either way the id is recorded, and no earlier mapping moves.
   */
  lemma AssignIdMeaning(t: IdTable, n: int)
    ensures var r := AssignId(t, n);
            && (r.found <==> n in t.vmap)
            && n in r.table.vmap && r.table.vmap[n] == r.id
            && Extends(r.table, t)
            && (r.found ==> r.table == t)
            && (!r.found ==> r.table.last == r.id && r.table.vmap.Keys == t.vmap.Keys + {n})
  {
  }

  /** In a dense table, an unseen id gets the number of ids seen so far: ids follow first-seen order. */
  lemma AssignIdFresh(t: IdTable, n: int)
    requires Dense(t) && n !in t.vmap
    ensures AssignId(t, n).id == |t.vmap|
  {
  }

  /** The ids stay exactly 0..last and distinct. */
  lemma AssignIdKeepsDense(t: IdTable, n: int)
    requires Dense(t)
    ensures Dense(AssignId(t, n).table)
  {
  }

  /** The same external id always gets the same logical id back. */
  lemma AssignIdStable(t: IdTable, n: int, k: int)
    requires Dense(t)
    ensures var r := AssignId(t, n);
            AssignId(AssignId(r.table, k).table, n).id == r.id
  {
    var r := AssignId(t, n);
    AssignIdMeaning(t, n);
    AssignIdKeepsDense(t, n);
    AssignIdMeaning(r.table, k);
    AssignIdKeepsDense(r.table, k);
    AssignIdMeaning(AssignId(r.table, k).table, n);
  }

  /**
   * The caller's `VMap` and `lastAssignedLogicalID`, which
   * `assignLogicalID` updates through its reference parameters.
   */
  class LogicalIds {
    var vmap: map<int, int>
    var lastAssigned: int

    function Table(): IdTable
      reads this
    {
      IdTable(vmap, lastAssigned)
    }

    /** An empty table; the counter is not read before the first vertex sets it. */
    constructor ()
      ensures vmap == map[] && Dense(Table())
    {
      vmap := map[];
      lastAssigned := -1;
    }

    /** `assignLogicalID(n, VMap, lastAssignedLogicalID)`; `id` is the new value of `n`. */
    method AssignLogicalID(n: int) returns (id: int, found: bool)
      modifies this
      ensures Assigned(Table(), id, found) == AssignId(old(Table()), n)
    {
      if vmap == map[] {
        vmap := vmap[n := 0];
        id := 0;
        lastAssigned := 0;
        found := false;
        return;
      }
      if n in vmap {
        id := vmap[n];
        found := true;
      } else {
        lastAssigned := lastAssigned + 1;
        vmap := vmap[n := lastAssigned];
        id := lastAssigned;
        found := false;
      }
    }
  }

  // ---------------------------------------------------------------------
  // A batch: `readBatchFromCSV`
  // ---------------------------------------------------------------------

  /** Every non-empty line converts: `stol` throws on none of them. */
  predicate WellFormed(lines: seq<string>, weighted: bool)
  {
    forall i :: 0 <= i < |lines| && lines[i] != "" ==> ConvertCSVLineIntoEdge(',', lines[i], weighted).Some?
  }

  /**
   * A line as the loop sees it: an empty line is skipped, a line whose
   * fields `stol` reads becomes an edge, and any other makes `stol` throw.
   */
  datatype Line = Blank | Parsed(edge: Edge) | Malformed

  function Record(line: string, weighted: bool): (r: Line)
    ensures r.Blank? <==> line == ""
    ensures r.Malformed? <==> line != "" && ConvertCSVLineIntoEdge(',', line, weighted).None?
    ensures r.Parsed? ==> ConvertCSVLineIntoEdge(',', line, weighted) == Some(r.edge)
  {
    if line == "" then Blank
    else match ConvertCSVLineIntoEdge(',', line, weighted)
      case Some(e) => Parsed(e)
      case None => Malformed
  }

  /** Every line as the loop sees it. */
  function Records(lines: seq<string>, weighted: bool): (r: seq<Line>)
    ensures |r| == |lines|
  {
    if |lines| == 0 then [] else Records(lines[..|lines| - 1], weighted) + [Record(lines[|lines| - 1], weighted)]
  }

  lemma {:induction false} RecordsAt(lines: seq<string>, weighted: bool, i: nat)
    requires i < |lines|
    ensures Records(lines, weighted)[i] == Record(lines[i], weighted)
  {
    if i < |lines| - 1 {
      RecordsAt(lines[..|lines| - 1], weighted, i);
    }
  }

  /** A read edge with its endpoints replaced by logical ids, source first, and its batch stamped. */
  datatype Stamped = Stamped(edge: Edge, table: IdTable)

  function Stamp(e: Edge, t: IdTable, batchId: int): (r: Stamped)
  {
    var a := AssignId(t, e.source);
    var b := AssignId(a.table, e.destination);
    Stamped(e.(source := a.id, destination := b.id,
               sourceExists := e.sourceExists || a.found, destExists := e.destExists || b.found,
               batchId := batchId), b.table)
  }

  /**
   * What a batch read leaves: the edges, the next line to read, and the
   * table; or, when `stol` threw, only the stream position after the
   * offending line and the table, whose updates survive the exception.
   */
  datatype Batch = Batch(edges: seq<Edge>, next: nat, table: IdTable) | Thrown(next: nat, table: IdTable)

  /**
   * The loop of `readBatchFromCSV` from line `i` on, with `count` edges
   * already collected: empty lines are skipped, a malformed line throws
   * (the edges collected so far are lost), and the loop stops right after
   * the edge that makes `count` reach `batchSize`.
   */
  function ReadFrom(recs: seq<Line>, i: nat, batchSize: int, batchId: int,
                    t: IdTable, count: int): (r: Batch)
    requires i <= |recs|
    ensures i <= r.next <= |recs|
    ensures r.Thrown? ==> i < r.next && recs[r.next - 1].Malformed?
    decreases |recs| - i
  {
    if i == |recs| then Batch([], i, t)
    else match recs[i]
      case Blank => ReadFrom(recs, i + 1, batchSize, batchId, t, count)
      case Malformed => Thrown(i + 1, t)
      case Parsed(e) =>
        var s := Stamp(e, t, batchId);
        if count + 1 == batchSize then Batch([s.edge], i + 1, s.table)
        else
          var r := ReadFrom(recs, i + 1, batchSize, batchId, s.table, count + 1);
          if r.Thrown? then r else Batch([s.edge] + r.edges, r.next, r.table)
  }

  /** The edges of the converted lines, in order: what the batch holds before the ids are mapped. */
  function Present(recs: seq<Line>): seq<Edge>
  {
    if |recs| == 0 then []
    else (if recs[0].Parsed? then [recs[0].edge] else []) + Present(recs[1..])
  }

  /** The k-th batch edge is the k-th converted line, stamped with the batch and mapped through `u`. */
  predicate MappedFrom(edges: seq<Edge>, raw: seq<Edge>, u: IdTable, batchId: int)
  {
    && |edges| == |raw|
    && forall k :: 0 <= k < |edges| ==>
         && raw[k].source in u.vmap && edges[k].source == u.vmap[raw[k].source]
         && raw[k].destination in u.vmap && edges[k].destination == u.vmap[raw[k].destination]
         && edges[k].weight == raw[k].weight && edges[k].batchId == batchId
  }

  lemma StampMeaning(e: Edge, t: IdTable, batchId: int)
    ensures var s := Stamp(e, t, batchId);
            && Extends(s.table, t) && MappedFrom([s.edge], [e], s.table, batchId)
  {
    var a := AssignId(t, e.source);
    AssignIdMeaning(t, e.source);
    AssignIdMeaning(a.table, e.destination);
  }

  lemma StampKeepsDense(e: Edge, t: IdTable, batchId: int)
    requires Dense(t)
    ensures Dense(Stamp(e, t, batchId).table)
  {
    var a := AssignId(t, e.source);
    AssignIdKeepsDense(t, e.source);
    AssignIdKeepsDense(a.table, e.destination);
  }

  lemma MappedFromCons(e: Edge, x: Edge, edges: seq<Edge>, raw: seq<Edge>, s: IdTable, u: IdTable, batchId: int)
    requires MappedFrom([e], [x], s, batchId) && MappedFrom(edges, raw, u, batchId) && Extends(u, s)
    ensures MappedFrom([e] + edges, [x] + raw, u, batchId)
  {
    forall k | 0 <= k < |edges| + 1
      ensures && ([x] + raw)[k].source in u.vmap && ([e] + edges)[k].source == u.vmap[([x] + raw)[k].source]
              && ([x] + raw)[k].destination in u.vmap && ([e] + edges)[k].destination == u.vmap[([x] + raw)[k].destination]
              && ([e] + edges)[k].weight == ([x] + raw)[k].weight && ([e] + edges)[k].batchId == batchId
    {
      if k > 0 { assert ([e] + edges)[k] == edges[k - 1] && ([x] + raw)[k] == raw[k - 1]; }
    }
  }

  /** A stamped edge in front of a batch read with the table it left. */
  lemma StampThen(e: Edge, t: IdTable, batchId: int, edges: seq<Edge>, u: IdTable, raw: seq<Edge>)
    requires var s := Stamp(e, t, batchId);
             Extends(u, s.table) && MappedFrom(edges, raw, u, batchId)
    ensures Extends(u, t)
    ensures MappedFrom([Stamp(e, t, batchId).edge] + edges, [e] + raw, u, batchId)
  {
    var s := Stamp(e, t, batchId);
    StampMeaning(e, t, batchId);
    MappedFromCons(s.edge, e, edges, raw, s.table, u, batchId);
  }

  lemma PresentCons(recs: seq<Line>, i: nat, j: nat)
    requires i < j <= |recs|
    ensures Present(recs[i..j]) == (if recs[i].Parsed? then [recs[i].edge] else []) + Present(recs[i + 1..j])
  {
    assert recs[i..j][0] == recs[i] && recs[i..j][1..] == recs[i + 1..j];
  }

  /**
   * A batch holds the converted lines read, in order, each with its
   * endpoints mapped to their logical ids and its batch id stamped; the
   * table keeps its earlier mappings, also when the read threw.
   */
  lemma {:induction false} ReadFromMeaning(recs: seq<Line>, i: nat, batchSize: int, batchId: int,
                                           t: IdTable, count: int)
    requires i <= |recs|
    ensures var r := ReadFrom(recs, i, batchSize, batchId, t, count);
            && Extends(r.table, t)
            && (r.Batch? ==> MappedFrom(r.edges, Present(recs[i..r.next]), r.table, batchId))
    decreases |recs| - i
  {
    var r := ReadFrom(recs, i, batchSize, batchId, t, count);
    if i == |recs| {
    } else if recs[i].Blank? {
      ReadFromMeaning(recs, i + 1, batchSize, batchId, t, count);
      PresentCons(recs, i, r.next);
    } else if recs[i].Parsed? {
      var e := recs[i].edge;
      var s := Stamp(e, t, batchId);
      PresentCons(recs, i, r.next);
      if count + 1 == batchSize {
        StampMeaning(e, t, batchId);
        assert Present(recs[i + 1..i + 1]) == [];
      } else {
        var q := ReadFrom(recs, i + 1, batchSize, batchId, s.table, count + 1);
        ReadFromMeaning(recs, i + 1, batchSize, batchId, s.table, count + 1);
        if q.Thrown? {
          StampMeaning(e, t, batchId);
        } else {
          assert r == Batch([s.edge] + q.edges, q.next, q.table);
          StampThen(e, t, batchId, q.edges, q.table, Present(recs[i + 1..r.next]));
        }
      }
    }
  }

  /**
   * The read throws at the first malformed line it reaches and at no
   * other: every line it passed over before is empty or converted.
   */
  lemma {:induction false} ReadFromThrows(recs: seq<Line>, i: nat, batchSize: int, batchId: int,
                                          t: IdTable, count: int)
    requires i <= |recs|
    ensures var r := ReadFrom(recs, i, batchSize, batchId, t, count);
            && (r.Batch? ==> forall k :: i <= k < r.next ==> !recs[k].Malformed?)
            && (r.Thrown? ==> forall k :: i <= k < r.next - 1 ==> !recs[k].Malformed?)
    decreases |recs| - i
  {
    if i < |recs| {
      if recs[i].Blank? {
        ReadFromThrows(recs, i + 1, batchSize, batchId, t, count);
      } else if recs[i].Parsed? {
        var s := Stamp(recs[i].edge, t, batchId);
        if count + 1 != batchSize {
          ReadFromThrows(recs, i + 1, batchSize, batchId, s.table, count + 1);
        }
      }
    }
  }

  /** On input whose every non-empty line converts, a batch read never throws. */
  lemma WellFormedNeverThrows(lines: seq<string>, weighted: bool, i: nat, batchSize: int, batchId: int,
                              t: IdTable, count: int)
    requires i <= |lines| && WellFormed(lines, weighted)
    ensures ReadFrom(Records(lines, weighted), i, batchSize, batchId, t, count).Batch?
  {
    var recs := Records(lines, weighted);
    forall k | 0 <= k < |recs| ensures !recs[k].Malformed? {
      RecordsAt(lines, weighted, k);
    }
  }

  /** The table a batch leaves is still dense. */
  lemma {:induction false} ReadFromKeepsDense(recs: seq<Line>, i: nat, batchSize: int, batchId: int,
                                              t: IdTable, count: int)
    requires i <= |recs| && Dense(t)
    ensures Dense(ReadFrom(recs, i, batchSize, batchId, t, count).table)
    decreases |recs| - i
  {
    if i < |recs| {
      if recs[i].Blank? {
        ReadFromKeepsDense(recs, i + 1, batchSize, batchId, t, count);
      } else if recs[i].Parsed? {
        var s := Stamp(recs[i].edge, t, batchId);
        StampKeepsDense(recs[i].edge, t, batchId);
        if count + 1 != batchSize {
          ReadFromKeepsDense(recs, i + 1, batchSize, batchId, s.table, count + 1);
        }
      }
    }
  }

  /**
   * A batch that did not throw never exceeds `batchSize - count` edges
   * when that is positive, and the loop reads to the end of the input
   * unless it stopped at exactly `batchSize`.
   */
  lemma {:induction false} ReadFromBound(recs: seq<Line>, i: nat, batchSize: int, batchId: int,
                                         t: IdTable, count: int)
    requires i <= |recs|
    ensures var r := ReadFrom(recs, i, batchSize, batchId, t, count);
            r.Batch? ==>
              && (count < batchSize ==> |r.edges| <= batchSize - count)
              && (count + |r.edges| != batchSize || count >= batchSize ==> r.next == |recs|)
    decreases |recs| - i
  {
    if i < |recs| {
      if recs[i].Blank? {
        ReadFromBound(recs, i + 1, batchSize, batchId, t, count);
      } else if recs[i].Parsed? {
        var s := Stamp(recs[i].edge, t, batchId);
        if count + 1 != batchSize {
          ReadFromBound(recs, i + 1, batchSize, batchId, s.table, count + 1);
        }
      }
    }
  }

  /**
   * `readBatchFromCSV(in, batchSize, batch_id, weighted, VMap,
   * lastAssignedLogicalID)` over the lines from `start`; `next` is where
   * the stream stands afterwards, and `threw` says that `stol` threw, in
   * which case `el` is not returned to the caller.
   */
  method ReadBatchFromCSV(lines: seq<string>, start: nat, batchSize: int, batchId: int, weighted: bool,
                          ids: LogicalIds) returns (el: seq<Edge>, next: nat, threw: bool)
    requires start <= |lines|
    modifies ids
    ensures (if threw then Thrown(next, ids.Table()) else Batch(el, next, ids.Table()))
            == ReadFrom(Records(lines, weighted), start, batchSize, batchId, old(ids.Table()), 0)
  {
    ghost var recs := Records(lines, weighted);
    ghost var goal := ReadFrom(recs, start, batchSize, batchId, ids.Table(), 0);
    el := [];
    var edgecount := 0;
    next := start;
    threw := false;
    while next < |lines|
      invariant start <= next <= |lines| && edgecount == |el|
      invariant goal == Joined(el, ReadFrom(recs, next, batchSize, batchId, ids.Table(), edgecount))
      decreases |lines| - next
    {
      ghost var t0, i0, el0, c0 := ids.Table(), next, el, edgecount;
      ReadFromAt(recs, i0, batchSize, batchId, t0, c0);
      var r := ReadLine(lines, next, batchId, weighted, ids);
      next := next + 1;
      match r
      case Blank =>
        assert ReadFrom(recs, i0, batchSize, batchId, t0, c0) == ReadFrom(recs, next, batchSize, batchId, t0, c0);
      case Malformed =>
        threw := true;
        return;
      case Parsed(e) =>
        el := el + [e];
        edgecount := edgecount + 1;
        if edgecount == batchSize {
          return;
        }
        ghost var rest := ReadFrom(recs, next, batchSize, batchId, ids.Table(), edgecount);
        JoinedCons(el0, e, rest);
        assert goal == Joined(el, rest);
    }
  }

  /**
   * The body of the loop for one line: an empty line reads nothing; any
   * other is converted, which throws when `stol` rejects a field, and then
   * its source and destination are mapped and its batch stamped.
   */
  method ReadLine(lines: seq<string>, i: nat, batchId: int, weighted: bool, ids: LogicalIds) returns (r: Line)
    requires i < |lines|
    modifies ids
    ensures var rec := Records(lines, weighted)[i];
            && (!rec.Parsed? ==> r == rec && ids.Table() == old(ids.Table()))
            && (rec.Parsed? ==> r.Parsed? && Stamped(r.edge, ids.Table()) == Stamp(rec.edge, old(ids.Table()), batchId))
  {
    RecordsAt(lines, weighted, i);
    var line := lines[i];
    if line == "" {
      return Blank;
    }
    var c := ConvertCSVLineIntoEdge(',', line, weighted);
    if c.None? {
      return Malformed;
    }
    var e := StampEdge(c.value, batchId, ids);
    return Parsed(e);
  }

  /** The edges collected so far in front of what the rest of the loop reads; a throw loses them. */
  function Joined(el: seq<Edge>, r: Batch): Batch
  {
    if r.Thrown? then r else Batch(el + r.edges, r.next, r.table)
  }

  lemma JoinedCons(el: seq<Edge>, e: Edge, r: Batch)
    ensures Joined(el, if r.Thrown? then r else Batch([e] + r.edges, r.next, r.table)) == Joined(el + [e], r)
  {
    assert r.Batch? ==> el + ([e] + r.edges) == (el + [e]) + r.edges;
  }

  /** The body of the loop for one edge: map the source, then the destination, then stamp the batch. */
  method StampEdge(e: Edge, batchId: int, ids: LogicalIds) returns (r: Edge)
    modifies ids
    ensures Stamped(r, ids.Table()) == Stamp(e, old(ids.Table()), batchId)
  {
    r := e;
    var src, sf := ids.AssignLogicalID(r.source);
    if sf { r := r.(sourceExists := true); }
    var dst, df := ids.AssignLogicalID(r.destination);
    if df { r := r.(destExists := true); }
    r := r.(source := src, destination := dst, batchId := batchId);
  }

  /** One step of the loop: an empty line is skipped, a malformed one throws, any other is stamped and ends the batch or goes on. */
  lemma ReadFromAt(recs: seq<Line>, i: nat, batchSize: int, batchId: int, t: IdTable, count: int)
    requires i < |recs|
    ensures recs[i].Blank? ==> ReadFrom(recs, i, batchSize, batchId, t, count) == ReadFrom(recs, i + 1, batchSize, batchId, t, count)
    ensures recs[i].Malformed? ==> ReadFrom(recs, i, batchSize, batchId, t, count) == Thrown(i + 1, t)
    ensures recs[i].Parsed? ==>
              var s := Stamp(recs[i].edge, t, batchId);
              ReadFrom(recs, i, batchSize, batchId, t, count)
                == if count + 1 == batchSize then Batch([s.edge], i + 1, s.table)
                   else var r := ReadFrom(recs, i + 1, batchSize, batchId, s.table, count + 1);
                        if r.Thrown? then r else Batch([s.edge] + r.edges, r.next, r.table)
  {
  }

  /**
   * Read from the start, a batch that did not throw holds at most
   * `batchSize` edges when that is positive, ends the input unless it is
   * full, and holds the converted lines read, mapped and stamped; thrown or
   * not, the table is still dense and keeps its earlier mappings.
   */
  lemma ReadBatchMeaning(recs: seq<Line>, start: nat, batchSize: int, batchId: int, t: IdTable)
    requires start <= |recs| && Dense(t)
    ensures var r := ReadFrom(recs, start, batchSize, batchId, t, 0);
            && (r.Batch? && batchSize > 0 ==> |r.edges| <= batchSize)
            && (r.Batch? && |r.edges| != batchSize ==> r.next == |recs|)
            && (r.Batch? ==> MappedFrom(r.edges, Present(recs[start..r.next]), r.table, batchId))
            && Dense(r.table) && Extends(r.table, t)
  {
    ReadFromBound(recs, start, batchSize, batchId, t, 0);
    ReadFromMeaning(recs, start, batchSize, batchId, t, 0);
    ReadFromKeepsDense(recs, start, batchSize, batchId, t, 0);
  }
}
