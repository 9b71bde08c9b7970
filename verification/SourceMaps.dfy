/**
 Source Map v3: the parser of a document and its `mappings`, and the encoder
 the format specifies.
 */
module SourceMaps {
  import opened Wrappers
  import opened Json
  import Strings
  import Vlq

  /** One mapping with a source binding, in absolute 0-based positions. */
  datatype Segment = Segment(genCol: int, src: int, line: int, col: int, name: Option<int>)

  datatype SourceMap = SourceMap(
    sources: seq<string>,
    sourcesContent: seq<Option<string>>,
    names: seq<string>,
    lines: map<int, seq<Segment>>)

  /** The accumulators that run across the whole file. */
  datatype Cursor = Cursor(src: int, line: int, col: int, name: int)

  const ORIGIN := Cursor(0, 0, 0, 0)

  /** The first four are Python's ValueError; iterating over a number is a TypeError. */
  datatype ParseError =
    | NotVersion3
    | NoMappings
    | BadSegment(cause: Vlq.Error)
    | NotIterable

  // ---------------------------------------------------------------------
  // What a mappings string denotes
  // ---------------------------------------------------------------------

  type Row = seq<Segment>

  function Bind(fields: seq<int>, genCol: int, at: Cursor): (Segment, Cursor)
    requires |fields| >= 4
  {
    var src, line, col := at.src + fields[1], at.line + fields[2], at.col + fields[3];
    if |fields| >= 5 then
      var name := at.name + fields[4];
      (Segment(genCol, src, line, col, Some(name)), Cursor(src, line, col, name))
    else
      (Segment(genCol, src, line, col, None), Cursor(src, line, col, at.name))
  }

  function PrependRow(front: Row, r: Result<(Row, Cursor), Vlq.Error>): Result<(Row, Cursor), Vlq.Error> {
    match r
    case Err(e) => Err(e)
    case Ok((back, at)) => Ok((front + back, at))
  }

  /** The segments of one generated line, in mapping order, and the cursor after it. */
  function ReadRow(pieces: seq<string>, genCol: int, at: Cursor): Result<(Row, Cursor), Vlq.Error> {
    if pieces == [] then Ok(([], at))
    else if pieces[0] == "" then ReadRow(pieces[1..], genCol, at)
    else match Vlq.Decode(pieces[0])
      case Err(e) => Err(e)
      case Ok(fields) =>
        if fields == [] then ReadRow(pieces[1..], genCol, at)
        else if |fields| < 4 then ReadRow(pieces[1..], genCol + fields[0], at)
        else
          var (segment, next) := Bind(fields, genCol + fields[0], at);
          PrependRow([segment], ReadRow(pieces[1..], genCol + fields[0], next))
  }

  function PrependRows(front: seq<Row>, r: Result<seq<Row>, Vlq.Error>): Result<seq<Row>, Vlq.Error> {
    match r
    case Err(e) => Err(e)
    case Ok(back) => Ok(front + back)
  }

  /** Line after line: the generated column restarts, the cursor runs on. */
  function ReadRows(lines: seq<string>, at: Cursor): Result<seq<Row>, Vlq.Error> {
    if lines == [] then Ok([])
    else match ReadRow(Strings.Split(lines[0], ','), 0, at)
      case Err(e) => Err(e)
      case Ok((row, next)) => PrependRows([row], ReadRows(lines[1..], next))
  }

  // ---------------------------------------------------------------------
  // Stable sort by generated column
  // ---------------------------------------------------------------------

  predicate Sorted(row: Row) {
    forall i, j :: 0 <= i < j < |row| ==> row[i].genCol <= row[j].genCol
  }

  function Insert(segment: Segment, row: Row): Row {
    if row == [] || segment.genCol <= row[0].genCol then [segment] + row
    else [row[0]] + Insert(segment, row[1..])
  }

  /** `row.sort(key=lambda seg: seg[0])`. */
  function SortByColumn(row: Row): Row {
    if row == [] then [] else Insert(row[0], SortByColumn(row[1..]))
  }

  /** The segments of `row` at one generated column, in order. */
  function AtColumn(row: Row, genCol: int): Row {
    if row == [] then []
    else (if row[0].genCol == genCol then [row[0]] else []) + AtColumn(row[1..], genCol)
  }

  /** What Python promises of `sort`: ordered, and stable. */
  ghost predicate IsStableSort(row: Row, out: Row) {
    Sorted(out) && forall genCol :: AtColumn(out, genCol) == AtColumn(row, genCol)
  }

  lemma {:induction false} InsertSorted(segment: Segment, row: Row)
    requires Sorted(row)
    ensures Sorted(Insert(segment, row)) && |Insert(segment, row)| == |row| + 1
    ensures segment.genCol <= Insert(segment, row)[0].genCol || (row != [] && row[0] == Insert(segment, row)[0])
    ensures Insert(segment, row)[0].genCol <= segment.genCol
  {
    if row != [] && segment.genCol > row[0].genCol {
      InsertSorted(segment, row[1..]);
      var tail := Insert(segment, row[1..]);
      assert tail[0].genCol >= row[0].genCol;
      assert forall k :: 0 <= k < |tail| ==> tail[0].genCol <= tail[k].genCol;
    }
  }

  /** Inserting goes in front of its equals. */
  lemma {:induction false} InsertAtColumn(segment: Segment, row: Row, genCol: int)
    ensures AtColumn(Insert(segment, row), genCol) == AtColumn([segment] + row, genCol)
  {
    assert ([segment] + row)[1..] == row;
    if row != [] && segment.genCol > row[0].genCol {
      InsertAtColumn(segment, row[1..], genCol);
      assert ([segment] + row[1..])[1..] == row[1..];
      assert Insert(segment, row)[1..] == Insert(segment, row[1..]);
    }
  }

  lemma {:induction false} SortIsStable(row: Row)
    ensures IsStableSort(row, SortByColumn(row))
  {
    if row != [] {
      SortIsStable(row[1..]);
      var tail := SortByColumn(row[1..]);
      InsertSorted(row[0], tail);
      forall genCol ensures AtColumn(SortByColumn(row), genCol) == AtColumn(row, genCol) {
        InsertAtColumn(row[0], tail, genCol);
        assert ([row[0]] + tail)[1..] == tail;
      }
    }
  }

  lemma {:induction false} AtColumnFirst(row: Row, genCol: int)
    requires AtColumn(row, genCol) != []
    ensures exists i :: 0 <= i < |row| && row[i] == AtColumn(row, genCol)[0]
    ensures AtColumn(row, genCol)[0].genCol == genCol
  {
    if row[0].genCol != genCol {
      AtColumnFirst(row[1..], genCol);
      var i :| 0 <= i < |row| - 1 && row[1..][i] == AtColumn(row[1..], genCol)[0];
      assert row[i + 1] == row[1..][i];
    } else {
      assert row[0] == AtColumn(row, genCol)[0];
    }
  }

  /** Order and stability leave one possible result. */
  lemma {:induction false} StableSortUnique(row: Row, out: Row)
    requires Sorted(out) && Sorted(row)
    requires forall genCol :: AtColumn(out, genCol) == AtColumn(row, genCol)
    ensures out == row
  {
    if row != [] && out != [] {
      SmallestFirst(row, out);
      SmallestFirst(out, row);
      assert out[0] == AtColumn(out, out[0].genCol)[0];
      assert row[0] == AtColumn(row, row[0].genCol)[0];
      forall genCol ensures AtColumn(out[1..], genCol) == AtColumn(row[1..], genCol) {
        var head := if row[0].genCol == genCol then [row[0]] else [];
        assert AtColumn(row, genCol)[|head|..] == AtColumn(row[1..], genCol);
        assert AtColumn(out, genCol)[|head|..] == AtColumn(out[1..], genCol);
      }
      StableSortUnique(row[1..], out[1..]);
      assert row == [row[0]] + row[1..] && out == [out[0]] + out[1..];
    } else {
      OwnColumn(row);
      OwnColumn(out);
    }
  }

  lemma OwnColumn(row: Row)
    ensures row != [] ==> AtColumn(row, row[0].genCol) != []
  {
  }

  lemma SmallestFirst(row: Row, out: Row)
    requires row != [] && out != [] && Sorted(out)
    requires AtColumn(out, row[0].genCol) == AtColumn(row, row[0].genCol)
    ensures out[0].genCol <= row[0].genCol
  {
    OwnColumn(row);
    hide AtColumn;
    AtColumnFirst(out, row[0].genCol);
  }

  lemma SortOfSorted(row: Row)
    requires Sorted(row)
    ensures SortByColumn(row) == row
  {
    SortIsStable(row);
    StableSortUnique(row, SortByColumn(row));
  }

  // ---------------------------------------------------------------------
  // The parser
  // ---------------------------------------------------------------------

  /** The lines that hold a bound segment, each sorted by column. */
  function Index(rows: seq<Row>): map<int, Row> {
    map i | 0 <= i < |rows| && rows[i] != [] :: SortByColumn(rows[i])
  }

  lemma ReadRowDone(row: Row, genCol: int, at: Cursor)
    ensures PrependRow(row, ReadRow([], genCol, at)) == Ok((row, at))
  {
    assert row + [] == row;
  }

  /** Reading the next piece moves it from what is owed to what is read. */
  lemma ReadRowStep(row: Row, pieces: seq<string>, genCol: int, at: Cursor)
    requires pieces != []
    ensures var owed := PrependRow(row, ReadRow(pieces, genCol, at));
            var fields := Vlq.Decode(pieces[0]);
            if pieces[0] == "" || fields == Ok([]) then
              owed == PrependRow(row, ReadRow(pieces[1..], genCol, at))
            else if fields.Err? then owed == Err(fields.error)
            else if |fields.value| < 4 then
              owed == PrependRow(row, ReadRow(pieces[1..], genCol + fields.value[0], at))
            else
              var col := genCol + fields.value[0];
              var bound := Bind(fields.value, col, at);
              owed == PrependRow(row + [bound.0], ReadRow(pieces[1..], col, bound.1))
  {
    var fields := Vlq.Decode(pieces[0]);
    if fields.Ok? && |fields.value| >= 4 {
      var bound := Bind(fields.value, genCol + fields.value[0], at);
      var rest := ReadRow(pieces[1..], genCol + fields.value[0], bound.1);
      if rest.Ok? {
        assert row + ([bound.0] + rest.value.0) == row + [bound.0] + rest.value.0;
      }
    }
  }

  method ParseRow(line: string, at: Cursor) returns (r: Result<(Row, Cursor), Vlq.Error>)
    ensures r == ReadRow(Strings.Split(line, ','), 0, at)
  {
    hide ReadRow, Strings.Split, Vlq.Decode, PrependRow;
    var pieces := Strings.Split(line, ',');
    var genCol := 0;
    var src, origLine, origCol, name := at.src, at.line, at.col, at.name;
    var row: Row := [];
    assert pieces[0..] == pieces;
    PrependRowNothing(ReadRow(pieces, 0, at));
    for i := 0 to |pieces|
      invariant PrependRow(row, ReadRow(pieces[i..], genCol, Cursor(src, origLine, origCol, name)))
             == ReadRow(pieces, 0, at)
    {
      ghost var left := pieces[i..];
      assert left[1..] == pieces[i + 1..] && left[0] == pieces[i];
      ReadRowStep(row, left, genCol, Cursor(src, origLine, origCol, name));
      if pieces[i] == "" { continue; }
      var decoded := Vlq.DecodeVlq(pieces[i]);
      if decoded.Err? { return Err(decoded.error); }
      var fields := decoded.value;
      if fields == [] { continue; }
      genCol := genCol + fields[0];
      if |fields| >= 4 {
        src := src + fields[1];
        origLine := origLine + fields[2];
        origCol := origCol + fields[3];
        var segmentName: Option<int> := None;
        if |fields| >= 5 {
          name := name + fields[4];
          segmentName := Some(name);
        }
        row := row + [Segment(genCol, src, origLine, origCol, segmentName)];
      }
    }
    assert pieces[|pieces|..] == [];
    ReadRowDone(row, genCol, Cursor(src, origLine, origCol, name));
    return Ok((row, Cursor(src, origLine, origCol, name)));
  }

  lemma PrependRowNothing(r: Result<(Row, Cursor), Vlq.Error>)
    ensures PrependRow([], r) == r
  {
    if r.Ok? { assert [] + r.value.0 == r.value.0; }
  }

  lemma ReadRowsStep(rows: seq<Row>, lines: seq<string>, at: Cursor)
    requires lines != []
    ensures var owed := PrependRows(rows, ReadRows(lines, at));
            match ReadRow(Strings.Split(lines[0], ','), 0, at)
            case Err(e) => owed == Err(e)
            case Ok((row, next)) => owed == PrependRows(rows + [row], ReadRows(lines[1..], next))
  {
    hide ReadRow, Strings.Split;
    match ReadRow(Strings.Split(lines[0], ','), 0, at)
    case Err(_) =>
    case Ok((row, next)) =>
      var rest := ReadRows(lines[1..], next);
      if rest.Ok? {
        assert rows + ([row] + rest.value) == rows + [row] + rest.value;
      }
  }

  lemma ReadRowsEnds(rows: seq<Row>, at: Cursor)
    ensures PrependRows(rows, ReadRows([], at)) == Ok(rows)
    ensures forall r :: PrependRows([], r) == r
  {
    assert rows + [] == rows;
    forall r: Result<seq<Row>, Vlq.Error> ensures PrependRows([], r) == r {
      if r.Ok? { assert [] + r.value == r.value; }
    }
  }

  lemma IndexAppend(rows: seq<Row>, row: Row)
    ensures Index(rows + [row]) == if row == [] then Index(rows) else Index(rows)[|rows| := SortByColumn(row)]
  {
    hide SortByColumn;
    var all := rows + [row];
    assert forall i :: 0 <= i < |rows| ==> all[i] == rows[i];
    assert all[|rows|] == row;
  }

  lemma EmptyLine(at: Cursor)
    ensures ReadRow(Strings.Split("", ','), 0, at) == Ok(([], at))
  {
    assert [""][1..] == [];
  }

  /** The nested loops over lines and pieces, with the four running counters. */
  method ParseMappings(mappings: string) returns (r: Result<map<int, Row>, Vlq.Error>)
    ensures match ReadRows(Strings.Split(mappings, ';'), ORIGIN)
            case Err(e) => r == Err(e)
            case Ok(rows) => r == Ok(Index(rows))
  {
    hide ReadRow, ReadRows, Strings.Split, PrependRows, Index, SortByColumn;
    var lines: map<int, Row> := map[];
    var texts := Strings.Split(mappings, ';');
    var at := ORIGIN;
    ghost var rows: seq<Row> := [];
    assert texts[0..] == texts;
    ReadRowsEnds(rows, at);
    IndexEmpty();
    for genLine := 0 to |texts|
      invariant |rows| == genLine && lines == Index(rows)
      invariant PrependRows(rows, ReadRows(texts[genLine..], at)) == ReadRows(texts, ORIGIN)
    {
      ghost var left := texts[genLine..];
      assert left[1..] == texts[genLine + 1..] && left[0] == texts[genLine];
      ReadRowsStep(rows, left, at);
      if texts[genLine] == "" {
        EmptyLine(at);
        IndexAppend(rows, []);
        rows := rows + [[]];
        continue;
      }
      var parsed := ParseRow(texts[genLine], at);
      if parsed.Err? { return Err(parsed.error); }
      var (row, next) := parsed.value;
      IndexAppend(rows, row);
      rows := rows + [row];
      at := next;
      if row != [] {
        row := SortByColumn(row);
        lines := lines[genLine := row];
      }
    }
    assert texts[|texts|..] == [];
    ReadRowsEnds(rows, at);
    return Ok(lines);
  }

  lemma IndexEmpty()
    ensures Index([]) == map[]
  {
  }

  // ---------------------------------------------------------------------
  // The document around the mappings
  // ---------------------------------------------------------------------

  /** `raw.get(key) or []`, iterated: a string yields characters, an object its keys. */
  function Iterate(value: Option<Json>): Result<seq<Json>, ParseError> {
    match value
    case None => Ok([])
    case Some(j) =>
      if !Truthy(j) then Ok([])
      else match j
        case Arr(items) => Ok(items)
        case Str(s) => Ok(seq(|s|, i requires 0 <= i < |s| => Str([s[i]])))
        case Obj(entries) => Ok(seq(|entries|, i requires 0 <= i < |entries| => Str(entries[i].key)))
        case _ => Err(NotIterable)
  }

  function TextOrEmpty(j: Json): string {
    if j.Str? then j.s else ""
  }

  function TextOrNone(j: Json): Option<string> {
    if j.Str? then Some(j.s) else None
  }

  function MapItems<T>(f: Json -> T, items: seq<Json>): seq<T> {
    seq(|items|, i requires 0 <= i < |items| => f(items[i]))
  }

  predicate IsVersion3(j: Option<Json>) {
    j == Some(Int(3)) || j == Some(Float(3.0))
  }

  /** The whole parse, checks in the code's order. */
  function Parse(raw: Json): Result<SourceMap, ParseError> {
    if !raw.Obj? || !IsVersion3(Get(raw.entries, "version")) then Err(NotVersion3)
    else match Get(raw.entries, "mappings")
      case Some(Str(mappings)) =>
        (match (Iterate(Get(raw.entries, "sources")),
                Iterate(Get(raw.entries, "sourcesContent")),
                Iterate(Get(raw.entries, "names")))
         case (Err(e), _, _) => Err(e)
         case (_, Err(e), _) => Err(e)
         case (_, _, Err(e)) => Err(e)
         case (Ok(sources), Ok(contents), Ok(names)) =>
           match ReadRows(Strings.Split(mappings, ';'), ORIGIN)
           case Err(e) => Err(BadSegment(e))
           case Ok(rows) =>
             Ok(SourceMap(MapItems(TextOrEmpty, sources), MapItems(TextOrNone, contents),
                          MapItems(TextOrEmpty, names), Index(rows))))
      case _ => Err(NoMappings)
  }

  method ParseSourceMap(raw: Json) returns (r: Result<SourceMap, ParseError>)
    ensures r == Parse(raw)
  {
    hide ReadRows, Index, Strings.Split;
    if !raw.Obj? || !IsVersion3(Get(raw.entries, "version")) {
      return Err(NotVersion3);
    }
    var mappings := Get(raw.entries, "mappings");
    if mappings.None? || !mappings.value.Str? {
      return Err(NoMappings);
    }
    var sources := Iterate(Get(raw.entries, "sources"));
    if sources.Err? { return Err(sources.error); }
    var contents := Iterate(Get(raw.entries, "sourcesContent"));
    if contents.Err? { return Err(contents.error); }
    var names := Iterate(Get(raw.entries, "names"));
    if names.Err? { return Err(names.error); }
    var lines := ParseMappings(mappings.value.s);
    if lines.Err? { return Err(BadSegment(lines.error)); }
    return Ok(SourceMap(MapItems(TextOrEmpty, sources.value), MapItems(TextOrNone, contents.value),
                        MapItems(TextOrEmpty, names.value), lines.value));
  }

  // ---------------------------------------------------------------------
  // What the lists of a parsed document hold
  // ---------------------------------------------------------------------

  /** One text for each element listed, empty where the element is not a string; nothing for a falsy field. */
  ghost predicate ListsTexts(field: Option<Json>, texts: seq<string>) {
    match field
    case None => texts == []
    case Some(Arr(items)) =>
      |texts| == |items| && forall i :: 0 <= i < |items| ==> texts[i] == if items[i].Str? then items[i].s else ""
    case Some(Str(s)) => |texts| == |s| && forall i :: 0 <= i < |s| ==> texts[i] == [s[i]]
    case Some(Obj(entries)) => |texts| == |entries| && forall i :: 0 <= i < |entries| ==> texts[i] == entries[i].key
    case Some(Null) => texts == []
    case Some(Bool(b)) => !b && texts == []
    case Some(Int(n)) => n == 0 && texts == []
    case Some(Float(x)) => x == 0.0 && texts == []
  }

  /** The same for embedded sources, nothing known where the element is not a string. */
  ghost predicate ListsContents(field: Option<Json>, contents: seq<Option<string>>) {
    match field
    case None => contents == []
    case Some(Arr(items)) =>
      |contents| == |items|
      && forall i :: 0 <= i < |items| ==> contents[i] == if items[i].Str? then Some(items[i].s) else None
    case Some(Str(s)) => |contents| == |s| && forall i :: 0 <= i < |s| ==> contents[i] == Some([s[i]])
    case Some(Obj(entries)) =>
      |contents| == |entries| && forall i :: 0 <= i < |entries| ==> contents[i] == Some(entries[i].key)
    case Some(Null) => contents == []
    case Some(Bool(b)) => !b && contents == []
    case Some(Int(n)) => n == 0 && contents == []
    case Some(Float(x)) => x == 0.0 && contents == []
  }

  lemma MapItemsAt<T>(f: Json -> T, items: seq<Json>)
    ensures |MapItems(f, items)| == |items|
    ensures forall i :: 0 <= i < |items| ==> MapItems(f, items)[i] == f(items[i])
  {
  }

  lemma IteratedTexts(field: Option<Json>, items: seq<Json>)
    requires Iterate(field) == Ok(items)
    ensures ListsTexts(field, MapItems(TextOrEmpty, items))
  {
    MapItemsAt(TextOrEmpty, items);
    hide MapItems;
    assert forall i :: 0 <= i < |items| ==> MapItems(TextOrEmpty, items)[i] == TextOrEmpty(items[i]);
  }

  lemma IteratedContents(field: Option<Json>, items: seq<Json>)
    requires Iterate(field) == Ok(items)
    ensures ListsContents(field, MapItems(TextOrNone, items))
  {
    MapItemsAt(TextOrNone, items);
    hide MapItems;
    assert forall i :: 0 <= i < |items| ==> MapItems(TextOrNone, items)[i] == TextOrNone(items[i]);
  }

  /** Sources, embedded sources and names of a parsed map are those its document lists, in order. */
  lemma ParsedLists(raw: Json, sm: SourceMap)
    requires Parse(raw) == Ok(sm)
    ensures raw.Obj?
    ensures ListsTexts(Get(raw.entries, "sources"), sm.sources)
    ensures ListsContents(Get(raw.entries, "sourcesContent"), sm.sourcesContent)
    ensures ListsTexts(Get(raw.entries, "names"), sm.names)
  {
    hide ReadRows, Index, Get, Iterate, MapItems, ListsTexts, ListsContents, Strings.Split;
    IteratedTexts(Get(raw.entries, "sources"), Iterate(Get(raw.entries, "sources")).value);
    IteratedContents(Get(raw.entries, "sourcesContent"), Iterate(Get(raw.entries, "sourcesContent")).value);
    IteratedTexts(Get(raw.entries, "names"), Iterate(Get(raw.entries, "names")).value);
  }

  // ---------------------------------------------------------------------
  // When parsing fails
  // ---------------------------------------------------------------------

  predicate GoodPiece(piece: string) {
    Vlq.InAlphabet(piece) && !Vlq.Dangling(piece)
  }

  predicate GoodLine(line: string) {
    forall i :: 0 <= i < |Strings.Split(line, ',')| ==> GoodPiece(Strings.Split(line, ',')[i])
  }

  lemma {:induction false} ReadRowFailsIff(pieces: seq<string>, genCol: int, at: Cursor)
    ensures ReadRow(pieces, genCol, at).Ok? <==> forall i :: 0 <= i < |pieces| ==> GoodPiece(pieces[i])
  {
    hide Vlq.Decode;
    if pieces != [] {
      Vlq.DecodeFailsIff(pieces[0]);
      assert forall i :: 1 <= i < |pieces| ==> pieces[i] == pieces[1..][i - 1];
      if pieces[0] == "" {
        ReadRowFailsIff(pieces[1..], genCol, at);
      } else if Vlq.Decode(pieces[0]).Ok? {
        var fields := Vlq.Decode(pieces[0]).value;
        if fields == [] {
          ReadRowFailsIff(pieces[1..], genCol, at);
        } else if |fields| < 4 {
          ReadRowFailsIff(pieces[1..], genCol + fields[0], at);
        } else {
          ReadRowFailsIff(pieces[1..], genCol + fields[0], Bind(fields, genCol + fields[0], at).1);
        }
      }
    }
  }

  /** A mappings string parses exactly when every piece of every line is a whole segment. */
  lemma {:induction false} ReadRowsFailsIff(lines: seq<string>, at: Cursor)
    ensures ReadRows(lines, at).Ok? <==> forall i :: 0 <= i < |lines| ==> GoodLine(lines[i])
  {
    hide ReadRow, Strings.Split, GoodPiece;
    if lines != [] {
      ReadRowFailsIff(Strings.Split(lines[0], ','), 0, at);
      assert forall i :: 1 <= i < |lines| ==> lines[i] == lines[1..][i - 1];
      if ReadRow(Strings.Split(lines[0], ','), 0, at).Ok? {
        ReadRowsFailsIff(lines[1..], ReadRow(Strings.Split(lines[0], ','), 0, at).value.1);
      }
    }
  }

  predicate GoodMappings(mappings: string) {
    forall i :: 0 <= i < |Strings.Split(mappings, ';')| ==> GoodLine(Strings.Split(mappings, ';')[i])
  }

  predicate Iterable(raw: Json)
    requires raw.Obj?
  {
    && Iterate(Get(raw.entries, "sources")).Ok?
    && Iterate(Get(raw.entries, "sourcesContent")).Ok?
    && Iterate(Get(raw.entries, "names")).Ok?
  }

  /**
   A document parses exactly when it is a version 3 object with a mappings
   string of whole segments and three lists that can be iterated; the one
   failure that is not a ValueError is a list that cannot.
   */
  lemma ParseFailsIff(raw: Json)
    ensures Parse(raw).Ok? <==>
              && raw.Obj? && Get(raw.entries, "version") in {Some(Int(3)), Some(Float(3.0))}
              && Get(raw.entries, "mappings").Some? && Get(raw.entries, "mappings").value.Str?
              && Iterable(raw) && GoodMappings(Get(raw.entries, "mappings").value.s)
    ensures Parse(raw) == Err(NotIterable) <==>
              && raw.Obj? && Get(raw.entries, "version") in {Some(Int(3)), Some(Float(3.0))}
              && Get(raw.entries, "mappings").Some? && Get(raw.entries, "mappings").value.Str?
              && !Iterable(raw)
  {
    hide ReadRows, Index, Get, Iterate, Strings.Split, GoodLine, MapItems;
    if raw.Obj? && Get(raw.entries, "mappings").Some? && Get(raw.entries, "mappings").value.Str? {
      ReadRowsFailsIff(Strings.Split(Get(raw.entries, "mappings").value.s, ';'), ORIGIN);
      IterateError(Get(raw.entries, "sources"));
      IterateError(Get(raw.entries, "sourcesContent"));
      IterateError(Get(raw.entries, "names"));
    }
  }

  lemma IterateError(value: Option<Json>)
    ensures Iterate(value).Err? ==> Iterate(value).error == NotIterable
  {
  }

  // ---------------------------------------------------------------------
  // The encoder the format specifies, and the round trip
  // ---------------------------------------------------------------------

  /** A mapping in absolute positions, with 1, 4 or 5 fields. */
  datatype Mapping =
    | Generated(genCol: int)
    | Mapped(genCol: int, src: int, line: int, col: int)
    | Named(genCol: int, src: int, line: int, col: int, name: int)

  function Fields(m: Mapping, genCol: int, at: Cursor): seq<int> {
    match m
    case Generated(c) => [c - genCol]
    case Mapped(c, s, l, o) => [c - genCol, s - at.src, l - at.line, o - at.col]
    case Named(c, s, l, o, n) => [c - genCol, s - at.src, l - at.line, o - at.col, n - at.name]
  }

  function Advance(m: Mapping, at: Cursor): Cursor {
    match m
    case Generated(_) => at
    case Mapped(_, s, l, o) => Cursor(s, l, o, at.name)
    case Named(_, s, l, o, n) => Cursor(s, l, o, n)
  }

  function EncodeRow(row: seq<Mapping>, genCol: int, at: Cursor): seq<string> {
    if row == [] then []
    else [Vlq.Encode(Fields(row[0], genCol, at))] + EncodeRow(row[1..], row[0].genCol, Advance(row[0], at))
  }

  function AdvanceRow(row: seq<Mapping>, at: Cursor): Cursor {
    if row == [] then at else AdvanceRow(row[1..], Advance(row[0], at))
  }

  function EncodeLines(table: seq<seq<Mapping>>, at: Cursor): seq<string> {
    if table == [] then []
    else [Strings.Join(EncodeRow(table[0], 0, at), ',')] + EncodeLines(table[1..], AdvanceRow(table[0], at))
  }

  function EncodeMappings(table: seq<seq<Mapping>>): string {
    Strings.Join(EncodeLines(table, ORIGIN), ';')
  }

  /** The mappings of a line that have a source binding. */
  function Bound(row: seq<Mapping>): Row {
    if row == [] then []
    else
      var rest := Bound(row[1..]);
      match row[0]
      case Generated(_) => rest
      case Mapped(c, s, l, o) => [Segment(c, s, l, o, None)] + rest
      case Named(c, s, l, o, n) => [Segment(c, s, l, o, Some(n))] + rest
  }

  function BoundRows(table: seq<seq<Mapping>>): (rows: seq<Row>)
    ensures |rows| == |table|
    ensures forall i :: 0 <= i < |table| ==> rows[i] == Bound(table[i])
  {
    if table == [] then [] else [Bound(table[0])] + BoundRows(table[1..])
  }

  lemma PieceIsSafe(values: seq<int>)
    ensures Strings.Free(Vlq.Encode(values), ',') && Strings.Free(Vlq.Encode(values), ';')
    ensures values != [] ==> Vlq.Encode(values) != ""
  {
    hide Vlq.Encode;
    Vlq.EncodeInAlphabet(values);
  }

  lemma {:induction false} PiecesAreSafe(row: seq<Mapping>, genCol: int, at: Cursor)
    ensures |EncodeRow(row, genCol, at)| == |row|
    ensures forall i :: 0 <= i < |row| ==>
      Strings.Free(EncodeRow(row, genCol, at)[i], ',') && Strings.Free(EncodeRow(row, genCol, at)[i], ';')
  {
    hide Vlq.Encode;
    if row != [] {
      PieceIsSafe(Fields(row[0], genCol, at));
      PiecesAreSafe(row[1..], row[0].genCol, Advance(row[0], at));
    }
  }

  lemma {:induction false} ReadEncodedRow(row: seq<Mapping>, genCol: int, at: Cursor)
    ensures ReadRow(EncodeRow(row, genCol, at), genCol, at) == Ok((Bound(row), AdvanceRow(row, at)))
  {
    hide Vlq.Encode, Vlq.Decode;
    if row != [] {
      var fields := Fields(row[0], genCol, at);
      var pieces := EncodeRow(row, genCol, at);
      assert pieces[1..] == EncodeRow(row[1..], row[0].genCol, Advance(row[0], at));
      PieceIsSafe(fields);
      Vlq.DecodeEncode(fields);
      ReadEncodedRow(row[1..], row[0].genCol, Advance(row[0], at));
    }
  }

  /** One line survives being joined with commas and split again. */
  lemma ReadEncodedLine(row: seq<Mapping>, at: Cursor)
    ensures ReadRow(Strings.Split(Strings.Join(EncodeRow(row, 0, at), ','), ','), 0, at)
         == Ok((Bound(row), AdvanceRow(row, at)))
    ensures Strings.Free(Strings.Join(EncodeRow(row, 0, at), ','), ';')
  {
    hide ReadRow, Strings.Split, Vlq.Encode;
    PiecesAreSafe(row, 0, at);
    Strings.JoinFree(EncodeRow(row, 0, at), ',', ';');
    if row == [] {
      EmptyLine(at);
    } else {
      Strings.SplitJoin(EncodeRow(row, 0, at), ',');
      ReadEncodedRow(row, 0, at);
    }
  }

  lemma {:induction false} ReadEncodedLines(table: seq<seq<Mapping>>, at: Cursor)
    ensures ReadRows(EncodeLines(table, at), at) == Ok(BoundRows(table))
    ensures |EncodeLines(table, at)| == |table|
    ensures forall i :: 0 <= i < |table| ==> Strings.Free(EncodeLines(table, at)[i], ';')
  {
    hide ReadRow, EncodeRow, Bound, AdvanceRow, Strings.Split, Strings.Join;
    if table != [] {
      var lines := EncodeLines(table, at);
      ReadEncodedLine(table[0], at);
      assert lines[1..] == EncodeLines(table[1..], AdvanceRow(table[0], at));
      ReadEncodedLines(table[1..], AdvanceRow(table[0], at));
    }
  }

  /** A version 3 document holding the encoded table. */
  function Document(table: seq<seq<Mapping>>, others: seq<Entry>): Json {
    Obj([Entry("version", Int(3)), Entry("mappings", Str(EncodeMappings(table)))] + others)
  }

  /** Every table comes back from its delta encoding without its 1-field mappings. */
  lemma MappingsRoundTrip(table: seq<seq<Mapping>>)
    ensures match ReadRows(Strings.Split(EncodeMappings(table), ';'), ORIGIN)
            case Err(_) => false
            case Ok(rows) => Index(rows) == Index(BoundRows(table))
  {
    hide ReadRow, Bound, EncodeRow, SortByColumn, Strings.Split;
    ReadEncodedLines(table, ORIGIN);
    if table == [] {
      EmptyLine(ORIGIN);
      Strings.SplitFree("", ';');
      var rows: seq<Row> := [[]];
      assert rows + [] == rows;
      assert [""][1..] == [];
      assert ReadRows([""], ORIGIN) == Ok(rows);
    } else {
      Strings.SplitJoin(EncodeLines(table, ORIGIN), ';');
    }
  }

  /** What a parsed generated line holds of a table: nothing but its bound mappings, in stable column order. */
  ghost predicate HoldsLine(table: seq<seq<Mapping>>, lines: map<int, Row>, genLine: int) {
    && (genLine in lines <==> 0 <= genLine < |table| && Bound(table[genLine]) != [])
    && (genLine in lines ==> IsStableSort(Bound(table[genLine]), lines[genLine]))
    && (genLine in lines && Sorted(Bound(table[genLine])) ==> lines[genLine] == Bound(table[genLine]))
  }

  lemma LinesOfTable(table: seq<seq<Mapping>>, genLine: int)
    ensures HoldsLine(table, Index(BoundRows(table)), genLine)
  {
    hide Bound, SortByColumn, IsStableSort;
    if genLine in Index(BoundRows(table)) {
      var row := Bound(table[genLine]);
      SortIsStable(row);
      if Sorted(row) { SortOfSorted(row); }
    }
  }

  /**
   Parsing a document that holds an encoded table gives back the table's bound
   mappings line by line: unchanged when they are column-sorted, otherwise in
   stable column order.
   */
  lemma ParseRoundTrip(table: seq<seq<Mapping>>, others: seq<Entry>)
    requires Iterate(Get(others, "sources")).Ok?
    requires Iterate(Get(others, "sourcesContent")).Ok?
    requires Iterate(Get(others, "names")).Ok?
    ensures Parse(Document(table, others)).Ok?
    ensures forall genLine :: HoldsLine(table, Parse(Document(table, others)).value.lines, genLine)
  {
    hide ReadRows, Index, EncodeMappings, Iterate, HoldsLine, Strings.Split, MapItems;
    MappingsRoundTrip(table);
    DocumentFields(table, others);
    forall genLine ensures HoldsLine(table, Index(BoundRows(table)), genLine) {
      LinesOfTable(table, genLine);
    }
  }

  lemma DocumentFields(table: seq<seq<Mapping>>, others: seq<Entry>)
    ensures var entries := Document(table, others).entries;
            && Get(entries, "version") == Some(Int(3))
            && Get(entries, "mappings") == Some(Str(EncodeMappings(table)))
            && (forall key :: key != "version" && key != "mappings" ==> Get(entries, key) == Get(others, key))
  {
    var entries := Document(table, others).entries;
    assert entries[1..] == [Entry("mappings", Str(EncodeMappings(table)))] + others;
    assert entries[1..][1..] == others;
    forall key | key != "version" && key != "mappings" ensures Get(entries, key) == Get(others, key) {
      assert Get(entries, key) == Get(entries[1..], key) == Get(entries[1..][1..], key);
    }
  }

  // ---------------------------------------------------------------------
  // The format on a known table
  // ---------------------------------------------------------------------

  const KNOWN_TABLE: seq<seq<Mapping>> :=
    [[Mapped(0, 0, 0, 0), Named(8, 0, 1, 4, 2)], [Mapped(4, 1, 0, 2)]]

  /** Fields in the order column, source, line, column, name; the column restarts with the line, the others run on. */
  lemma KnownMappings()
    ensures EncodeMappings(KNOWN_TABLE) == "AAAA,QACIE;ICDF"
  {
    hide EncodeRow, AdvanceRow;
    var first, second := KNOWN_TABLE[0], KNOWN_TABLE[1];
    var after := Cursor(0, 1, 4, 2);
    KnownFirst();
    KnownSecond();
    JoinTwo("AAAA", "QACIE", ',');
    assert "AAAA" + [','] + "QACIE" == "AAAA,QACIE";
    assert Strings.Join(["ICDF"], ',') == "ICDF";
    assert KNOWN_TABLE[1..] == [second] && KNOWN_TABLE[1..][1..] == [];
    assert EncodeLines(KNOWN_TABLE[1..], after) == ["ICDF"];
    assert EncodeLines(KNOWN_TABLE, ORIGIN) == ["AAAA,QACIE", "ICDF"];
    JoinTwo("AAAA,QACIE", "ICDF", ';');
    assert "AAAA,QACIE" + [';'] + "ICDF" == "AAAA,QACIE;ICDF";
  }

  lemma JoinTwo(a: string, b: string, sep: char)
    ensures Strings.Join([a, b], sep) == a + [sep] + b
  {
    assert [a, b][1..] == [b];
  }

  lemma KnownFirst()
    ensures EncodeRow([Mapped(0, 0, 0, 0), Named(8, 0, 1, 4, 2)], 0, ORIGIN) == ["AAAA", "QACIE"]
    ensures AdvanceRow([Mapped(0, 0, 0, 0), Named(8, 0, 1, 4, 2)], ORIGIN) == Cursor(0, 1, 4, 2)
  {
    hide Vlq.Encode;
    FourZeros();
    NamedPiece();
    var row := [Mapped(0, 0, 0, 0), Named(8, 0, 1, 4, 2)];
    assert row[1..] == [Named(8, 0, 1, 4, 2)] && row[1..][1..] == [];
    assert EncodeRow(row[1..], 0, ORIGIN) == ["QACIE"];
    assert AdvanceRow(row[1..], ORIGIN) == Cursor(0, 1, 4, 2);
  }

  lemma KnownSecond()
    ensures EncodeRow([Mapped(4, 1, 0, 2)], 0, Cursor(0, 1, 4, 2)) == ["ICDF"]
  {
    hide Vlq.Encode;
    DeltaPiece();
    assert [Mapped(4, 1, 0, 2)][1..] == [];
  }

  lemma FourZeros()
    ensures Vlq.Encode([0, 0, 0, 0]) == "AAAA"
  {
    EncodeFirst(0, [], "", 'A', 0);
    EncodeFirst(0, [0], "A", 'A', 0);
    EncodeFirst(0, [0, 0], "AA", 'A', 0);
    EncodeFirst(0, [0, 0, 0], "AAA", 'A', 0);
    assert [0] + [0, 0, 0] == [0, 0, 0, 0] && [0] + [0, 0] == [0, 0, 0] && [0] + [0] == [0, 0] && [0] + [] == [0];
    assert ['A'] + "AAA" == "AAAA" && ['A'] + "AA" == "AAA" && ['A'] + "A" == "AA" && ['A'] + "" == "A";
  }

  lemma NamedPiece()
    ensures Vlq.Encode([8, 0, 1, 4, 2]) == "QACIE"
  {
    EncodeFirst(2, [], "", 'E', 4);
    assert [2] + [] == [2] && ['E'] + "" == "E";
    EncodeFirst(4, [2], "E", 'I', 8);
    assert [4] + [2] == [4, 2] && ['I'] + "E" == "IE";
    EncodeFirst(1, [4, 2], "IE", 'C', 2);
    assert [1] + [4, 2] == [1, 4, 2] && ['C'] + "IE" == "CIE";
    EncodeFirst(0, [1, 4, 2], "CIE", 'A', 0);
    assert [0] + [1, 4, 2] == [0, 1, 4, 2] && ['A'] + "CIE" == "ACIE";
    EncodeFirst(8, [0, 1, 4, 2], "ACIE", 'Q', 16);
    assert [8] + [0, 1, 4, 2] == [8, 0, 1, 4, 2] && ['Q'] + "ACIE" == "QACIE";
  }

  lemma DeltaPiece()
    ensures Vlq.Encode([4, 1, -1, -2]) == "ICDF"
  {
    EncodeFirst(-2, [], "", 'F', 5);
    assert [-2] + [] == [-2] && ['F'] + "" == "F";
    EncodeFirst(-1, [-2], "F", 'D', 3);
    assert [-1] + [-2] == [-1, -2] && ['D'] + "F" == "DF";
    EncodeFirst(1, [-1, -2], "DF", 'C', 2);
    assert [1] + [-1, -2] == [1, -1, -2] && ['C'] + "DF" == "CDF";
    EncodeFirst(4, [1, -1, -2], "CDF", 'I', 8);
    assert [4] + [1, -1, -2] == [4, 1, -1, -2] && ['I'] + "CDF" == "ICDF";
  }

  /** A small number is one digit in front. */
  lemma EncodeFirst(n: int, rest: seq<int>, tail: string, ch: char, raw: nat)
    requires Vlq.Raw(n) == raw < 32 && Vlq.CharOf(raw) == ch && Vlq.Encode(rest) == tail
    ensures Vlq.Encode([n] + rest) == [ch] + tail
  {
    assert ([n] + rest)[1..] == rest;
  }
}
