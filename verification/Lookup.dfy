/** Position lookup in a parsed source map, and the source lines around a position. */
module Lookup {
  import opened Wrappers
  import opened Json
  import opened SourceMaps
  import Strings

  datatype Position = Position(src: int, line: int, col: int, name: Option<int>)

  function PositionOf(segment: Segment): Position {
    Position(segment.src, segment.line, segment.col, segment.name)
  }

  /** The last segment before the first one that starts after `genCol`. */
  function Scan(row: Row, genCol: int): Option<Segment> {
    if row == [] || row[0].genCol > genCol then None
    else match Scan(row[1..], genCol)
      case None => Some(row[0])
      case later => later
  }

  function LookupAt(sm: SourceMap, genLine: int, genCol: int): Option<Position> {
    if genLine !in sm.lines then None
    else match Scan(sm.lines[genLine], genCol)
      case None => None
      case Some(segment) => Some(PositionOf(segment))
  }

  lemma {:induction false} ScanPrefix(row: Row, genCol: int, n: nat)
    requires n <= |row|
    requires forall i :: 0 <= i < n ==> row[i].genCol <= genCol
    requires n == |row| || row[n].genCol > genCol
    ensures Scan(row, genCol) == if n == 0 then None else Some(row[n - 1])
  {
    if n > 0 {
      ScanPrefix(row[1..], genCol, n - 1);
    }
  }

  /** The loop with its early exit. */
  method LookupPosition(sm: SourceMap, genLine: int, genCol: int) returns (r: Option<Position>)
    ensures r == LookupAt(sm, genLine, genCol)
  {
    if genLine !in sm.lines || sm.lines[genLine] == [] {
      return None;
    }
    var segments := sm.lines[genLine];
    var chosen: Option<Segment> := None;
    var i := 0;
    while i < |segments|
      invariant 0 <= i <= |segments|
      invariant forall k :: 0 <= k < i ==> segments[k].genCol <= genCol
      invariant chosen == if i == 0 then None else Some(segments[i - 1])
    {
      if segments[i].genCol <= genCol {
        chosen := Some(segments[i]);
      } else {
        break;
      }
      i := i + 1;
    }
    ScanPrefix(segments, genCol, i);
    if chosen.None? {
      return None;
    }
    return Some(PositionOf(chosen.value));
  }

  // ---------------------------------------------------------------------
  // What lookup answers on a parsed map
  // ---------------------------------------------------------------------

  /** Entry `i`, in mapping order, is the last of those with the greatest column at or before `genCol`. */
  ghost predicate IsBest(row: Row, genCol: int, i: int) {
    && 0 <= i < |row|
    && row[i].genCol <= genCol
    && forall j :: 0 <= j < |row| && row[j].genCol <= genCol ==>
         row[j].genCol < row[i].genCol || (row[j].genCol == row[i].genCol && j <= i)
  }

  lemma BestIsUnique(row: Row, genCol: int, i: int, j: int)
    requires IsBest(row, genCol, i) && IsBest(row, genCol, j)
    ensures i == j
  {
  }

  /** The best segment of a row in mapping order, found from the back. */
  function Pick(row: Row, genCol: int): Option<Segment> {
    if row == [] then None
    else
      var later := Pick(row[1..], genCol);
      if row[0].genCol <= genCol && (later.None? || later.value.genCol < row[0].genCol) then Some(row[0])
      else later
  }

  lemma {:induction false} PickIsBest(row: Row, genCol: int)
    ensures Pick(row, genCol).None? ==> forall i :: 0 <= i < |row| ==> row[i].genCol > genCol
    ensures Pick(row, genCol).Some? ==> exists i :: IsBest(row, genCol, i) && row[i] == Pick(row, genCol).value
  {
    if row != [] {
      var tail := row[1..];
      PickIsBest(tail, genCol);
      assert forall i :: 1 <= i < |row| ==> row[i] == tail[i - 1];
      if Pick(tail, genCol).Some? {
        var i :| IsBest(tail, genCol, i) && tail[i] == Pick(tail, genCol).value;
        assert row[i + 1] == tail[i];
        if Pick(row, genCol) == Pick(tail, genCol) {
          assert IsBest(row, genCol, i + 1);
        } else {
          assert IsBest(row, genCol, 0);
        }
      } else if row[0].genCol <= genCol {
        assert IsBest(row, genCol, 0);
      }
    }
  }

  lemma {:induction false} ScanInsert(segment: Segment, row: Row, genCol: int)
    requires Sorted(row)
    ensures var later := Scan(row, genCol);
            Scan(Insert(segment, row), genCol)
            == if segment.genCol <= genCol && (later.None? || later.value.genCol < segment.genCol)
               then Some(segment) else later
    ensures Scan(row, genCol).Some? ==>
              Scan(row, genCol).value in row && Scan(row, genCol).value.genCol >= row[0].genCol
  {
    if row != [] {
      ScanInsert(segment, row[1..], genCol);
      assert ([segment] + row)[1..] == row;
      assert ([row[0]] + Insert(segment, row[1..]))[1..] == Insert(segment, row[1..]);
    } else {
      assert ([segment] + row)[1..] == [];
    }
  }

  lemma {:induction false} ScanSorted(row: Row, genCol: int)
    ensures Scan(SortByColumn(row), genCol) == Pick(row, genCol)
  {
    if row != [] {
      ScanSorted(row[1..], genCol);
      SortIsStable(row[1..]);
      ScanInsert(row[0], SortByColumn(row[1..]), genCol);
    }
  }

  /** The answer to a query, read off the mappings in the order they were written. */
  ghost predicate Answers(row: Row, genCol: int, r: Option<Position>) {
    match r
    case None => forall i :: 0 <= i < |row| ==> row[i].genCol > genCol
    case Some(position) => exists i :: IsBest(row, genCol, i) && position == PositionOf(row[i])
  }

  lemma IndexedLookup(rows: seq<Row>, sm: SourceMap, genLine: int, genCol: int)
    requires sm.lines == Index(rows)
    ensures Answers(if 0 <= genLine < |rows| then rows[genLine] else [], genCol, LookupAt(sm, genLine, genCol))
  {
    if 0 <= genLine < |rows| && rows[genLine] != [] {
      var row := rows[genLine];
      ScanSorted(row, genCol);
      PickIsBest(row, genCol);
      if Pick(row, genCol).Some? {
        var i :| IsBest(row, genCol, i) && row[i] == Pick(row, genCol).value;
        assert PositionOf(Pick(row, genCol).value) == PositionOf(row[i]);
      }
    }
  }

  /** The mappings of a generated line as a successfully parsed document lists them. */
  ghost function WrittenRow(raw: Json, genLine: int): Row
    requires Parse(raw).Ok?
  {
    var rows := ReadRows(Strings.Split(Get(raw.entries, "mappings").value.s, ';'), ORIGIN).value;
    if 0 <= genLine < |rows| then rows[genLine] else []
  }

  /**
   On every successfully parsed map, negative column deltas included, lookup
   returns the last mapping among those with the greatest column at or before
   the query, and nothing exactly when no mapping of the line starts by then.
   */
  lemma ParsedLookup(raw: Json, genLine: int, genCol: int)
    requires Parse(raw).Ok?
    ensures Answers(WrittenRow(raw, genLine), genCol, LookupAt(Parse(raw).value, genLine, genCol))
  {
    hide ReadRows, Index, Strings.Split, Iterate, Get, MapItems, LookupAt, Answers;
    var rows := ReadRows(Strings.Split(Get(raw.entries, "mappings").value.s, ';'), ORIGIN).value;
    IndexedLookup(rows, Parse(raw).value, genLine, genCol);
  }

  // ---------------------------------------------------------------------
  // Source context
  // ---------------------------------------------------------------------

  const CONTEXT_WINDOW := 5

  datatype Context = NoContext | Context(line: string, pre: seq<string>, post: seq<string>)

  function Min(a: int, b: int): int {
    if a < b then a else b
  }

  function SourceContext(sm: SourceMap, src: int, line: int): Context {
    if !(0 <= src < |sm.sourcesContent|) then NoContext
    else match sm.sourcesContent[src]
      case None => NoContext
      case Some(content) =>
        var lines := Strings.Split(content, '\n');
        if !(0 <= line < |lines|) then NoContext
        else
          var from := if line - CONTEXT_WINDOW > 0 then line - CONTEXT_WINDOW else 0;
          Context(lines[line], lines[from..line], lines[line + 1..Min(line + 1 + CONTEXT_WINDOW, |lines|)])
  }

  function Remainder(before: seq<string>, c: Context, after: seq<string>): seq<string>
    requires c.Context?
  {
    before + c.pre + [c.line] + c.post + after
  }

  /**
   There is a context exactly for a line of an embedded source, and it is a
   window of that source: put back between the lines before and after it, it is
   the source; it holds up to five lines on either side, fewer only at an end of
   the file.
   */
  lemma ContextIsWindow(sm: SourceMap, src: int, line: int)
    ensures SourceContext(sm, src, line).Context? <==>
              && 0 <= src < |sm.sourcesContent| && sm.sourcesContent[src].Some?
              && 0 <= line <= multiset(sm.sourcesContent[src].value)['\n']
    ensures SourceContext(sm, src, line).Context? ==> exists before, after ::
      && Strings.Join(Remainder(before, SourceContext(sm, src, line), after), '\n') == sm.sourcesContent[src].value
      && |before| + |SourceContext(sm, src, line).pre| == line
      && (|SourceContext(sm, src, line).pre| == 5 || (before == [] && |SourceContext(sm, src, line).pre| < 5))
      && (|SourceContext(sm, src, line).post| == 5 || (after == [] && |SourceContext(sm, src, line).post| < 5))
  {
    hide Strings.Split, Strings.Join;
    if 0 <= src < |sm.sourcesContent| && sm.sourcesContent[src].Some? {
      var content := sm.sourcesContent[src].value;
      var lines := Strings.Split(content, '\n');
      Strings.SplitCount(content, '\n');
      Strings.JoinSplit(content, '\n');
      var c := SourceContext(sm, src, line);
      if c.Context? {
        var before, after := lines[..line - |c.pre|], lines[line + 1 + |c.post|..];
        assert Remainder(before, c, after) == lines;
      }
    }
  }
}
