/** From a compiler's table and an upload to the frame on the dashboard. */
module MapPipeline {
  import opened Wrappers
  import opened Json
  import opened SourceMaps
  import opened Lookup
  import opened Symbolicate
  import Strings

  // ---------------------------------------------------------------------
  // The mapping that covers a position
  // ---------------------------------------------------------------------

  /** Mapping `j` has a source and is the last of those with the greatest column at or before `genCol`. */
  ghost predicate Covers(row: seq<Mapping>, genCol: int, j: int) {
    && 0 <= j < |row| && !row[j].Generated? && row[j].genCol <= genCol
    && forall k :: 0 <= k < |row| && !row[k].Generated? && row[k].genCol <= genCol ==>
         row[k].genCol < row[j].genCol || (row[k].genCol == row[j].genCol && k <= j)
  }

  function NameOf(m: Mapping): Option<int> {
    match m
    case Named(_, _, _, _, name) => Some(name)
    case _ => None
  }

  function SegmentOf(m: Mapping): Segment
    requires !m.Generated?
  {
    Segment(m.genCol, m.src, m.line, m.col, NameOf(m))
  }

  lemma BoundFirst(row: seq<Mapping>)
    requires row != []
    ensures Bound(row) == (if row[0].Generated? then [] else [SegmentOf(row[0])]) + Bound(row[1..])
  {
    assert [] + Bound(row[1..]) == Bound(row[1..]);
  }

  /** The segment picked is that of some mapping. */
  lemma {:induction false} PickedMapping(row: seq<Mapping>, genCol: int)
    ensures Pick(Bound(row), genCol).Some? ==>
      exists k :: 0 <= k < |row| && !row[k].Generated? && row[k].genCol <= genCol
               && Pick(Bound(row), genCol).value.genCol == row[k].genCol
  {
    hide Bound;
    if row == [] {
      NothingBound();
    } else {
      BoundFirst(row);
      var tail := row[1..];
      PickedMapping(tail, genCol);
      PickFirst(row, genCol);
      if Pick(Bound(row), genCol).Some? {
        if Pick(Bound(row), genCol) == Pick(Bound(tail), genCol) {
          var k :| 0 <= k < |tail| && !tail[k].Generated? && tail[k].genCol <= genCol
                && Pick(Bound(tail), genCol).value.genCol == tail[k].genCol;
          assert row[k + 1] == tail[k];
        } else {
          assert !row[0].Generated?;
        }
      }
    }
  }

  lemma NothingBound()
    ensures Bound([]) == []
  {
  }

  lemma PickFirst(row: seq<Mapping>, genCol: int)
    requires row != []
    ensures var later := Pick(Bound(row[1..]), genCol);
            Pick(Bound(row), genCol)
            == if !row[0].Generated? && row[0].genCol <= genCol && (later.None? || later.value.genCol < row[0].genCol)
               then Some(SegmentOf(row[0])) else later
  {
    hide Bound;
    BoundFirst(row);
    if !row[0].Generated? {
      assert Bound(row)[1..] == Bound(row[1..]);
    } else {
      assert Bound(row) == Bound(row[1..]);
    }
  }

  lemma {:induction false} CoveringPicked(row: seq<Mapping>, genCol: int, j: int)
    requires Covers(row, genCol, j)
    ensures Pick(Bound(row), genCol) == Some(SegmentOf(row[j]))
  {
    hide Bound, Pick;
    var tail := row[1..];
    PickFirst(row, genCol);
    assert forall k :: 1 <= k < |row| ==> row[k] == tail[k - 1];
    if j == 0 {
      PickedMapping(tail, genCol);
    } else {
      assert Covers(tail, genCol, j - 1) by {
        assert forall k :: 0 <= k < |tail| ==> tail[k] == row[k + 1];
      }
      CoveringPicked(tail, genCol, j - 1);
    }
  }

  lemma CoveringFound(
      table: seq<seq<Mapping>>, others: seq<Entry>, sm: SourceMap, genLine: nat, genCol: int, j: int)
    requires Parse(Document(table, others)) == Ok(sm)
    requires genLine < |table| && Covers(table[genLine], genCol, j)
    ensures LookupAt(sm, genLine, genCol)
         == Some(Position(table[genLine][j].src, table[genLine][j].line, table[genLine][j].col, NameOf(table[genLine][j])))
  {
    hide Bound, Pick, Parse, Covers, LookupAt, Answers, IsBest;
    var row := Bound(table[genLine]);
    CoversMeans(table[genLine], genCol, j);
    EncodedLookup(table, others, sm, genLine, genCol);
    CoveringPicked(table[genLine], genCol, j);
    PickAnswers(row, genCol, LookupAt(sm, genLine, genCol));
  }

  lemma PickAnswers(row: Row, genCol: int, r: Option<Position>)
    requires Pick(row, genCol).Some? && Answers(row, genCol, r)
    ensures r == Some(PositionOf(Pick(row, genCol).value))
  {
    hide Pick;
    PickIsBest(row, genCol);
    var i :| IsBest(row, genCol, i) && row[i] == Pick(row, genCol).value;
    BestIsFound(row, genCol, i, r);
  }

  lemma CoversMeans(row: seq<Mapping>, genCol: int, j: int)
    requires Covers(row, genCol, j)
    ensures 0 <= j < |row| && !row[j].Generated?
  {
  }

  // ---------------------------------------------------------------------
  // The frame that comes out
  // ---------------------------------------------------------------------

  /** A list of the document, empty when it is not there. */
  predicate IsList(others: seq<Entry>, key: string, items: seq<Json>) {
    match Get(others, key)
    case Some(j) => j == Arr(items)
    case None => items == []
  }

  predicate IsText(items: seq<Json>, i: int) {
    0 <= i < |items| && items[i].Str? && items[i].s != ""
  }

  /** The value under a key, `null` when it is not there. */
  function ValueOf(frame: seq<Entry>, key: string): Json {
    match Get(frame, key)
    case Some(v) => v
    case None => Null
  }

  /** The text has the other somewhere in it. */
  ghost predicate Has(s: string, part: string) {
    exists a, b :: s == a + part + b
  }

  lemma ContainsIff(s: string, part: string)
    ensures Contains(s, part) <==> Has(s, part)
  {
    if Contains(s, part) {
      var i :| 0 <= i <= |s| && StartsAt(s, i, part);
      assert s == s[..i] + part + s[i + |part|..];
    }
    if Has(s, part) {
      var a, b :| s == a + part + b;
      assert StartsAt(s, |a|, part);
    }
  }

  /** `out` is `frame` moved to the origin of mapping `m` in a document with these sources and names. */
  ghost predicate MovedTo(
    frame: seq<Entry>, out: seq<Entry>, m: Mapping, sources: seq<Json>, names: seq<Json>)
    requires !m.Generated?
  {
    var path := if IsText(sources, m.src) then sources[m.src] else ValueOf(frame, "filename");
    && Get(out, "filename") == Some(path)
    && Get(out, "lineno") == Some(Int(m.line + 1))
    && Get(out, "colno") == Some(Int(m.col + 1))
    && Get(out, "function") == (if m.Named? && IsText(names, m.name) then Some(names[m.name]) else Get(frame, "function"))
    && Get(out, "raw_filename") == Some(ValueOf(frame, "filename"))
    && Get(out, "raw_lineno") == Get(frame, "lineno")
    && Get(out, "in_app") == (if path.Str? && Has(path.s, "node_modules") then Some(Bool(false)) else Get(frame, "in_app"))
  }

  /** The lists of the document are those of its other entries. */
  lemma DocumentLists(table: seq<seq<Mapping>>, others: seq<Entry>, sm: SourceMap, sources: seq<Json>, names: seq<Json>)
    requires Parse(Document(table, others)) == Ok(sm)
    requires IsList(others, "sources", sources) && IsList(others, "names", names)
    ensures |sm.sources| == |sources| && |sm.names| == |names|
    ensures forall i :: 0 <= i < |sources| ==> sm.sources[i] == if sources[i].Str? then sources[i].s else ""
    ensures forall i :: 0 <= i < |names| ==> sm.names[i] == if names[i].Str? then names[i].s else ""
  {
    hide Parse, Get;
    ParsedLists(Document(table, others), sm);
    DocumentFields(table, others);
  }

  lemma OriginOf(
      sm: SourceMap, frame: seq<Entry>, m: Mapping, sources: seq<Json>, names: seq<Json>)
    requires !m.Generated? && 0 <= m.src < |sources|
    requires |sm.sources| == |sources| && |sm.names| == |names|
    requires forall i :: 0 <= i < |sources| ==> sm.sources[i] == if sources[i].Str? then sources[i].s else ""
    requires forall i :: 0 <= i < |names| ==> sm.names[i] == if names[i].Str? then names[i].s else ""
    ensures OriginalPath(frame, sm, m.src) == if IsText(sources, m.src) then sources[m.src] else ValueOf(frame, "filename")
    ensures OriginalName(sm, NameOf(m)) == if m.Named? && IsText(names, m.name) then names[m.name].s else ""
  {
    hide Get;
  }

  /**
   Compiler to dashboard on the inputs alone: encode a table, parse the document
   that holds it, rewrite a frame. The frame comes out at the origin of the
   mapping that covers it, under the names the document lists.
   */
  lemma FrameThroughDocument(
      table: seq<seq<Mapping>>, others: seq<Entry>, sm: SourceMap, frame: seq<Entry>, genLine: nat, genCol: nat, j: int,
      sources: seq<Json>, names: seq<Json>)
    requires Parse(Document(table, others)) == Ok(sm)
    requires IsList(others, "sources", sources) && IsList(others, "names", names)
    requires genLine < |table| && FrameAtPosition(frame, genLine, genCol) && Covers(table[genLine], genCol, j)
    requires 0 <= table[genLine][j].src < |sources|
    ensures MovedTo(frame, SymbolicateFrame(frame, sm), table[genLine][j], sources, names)
  {
    hide Get, SymbolicateFrame, OriginalName, OriginalPath, LookupAt, Parse, Covers, IsList, IsText, Has, Contains, ValueOf;
    CoversMeans(table[genLine], genCol, j);
    CoveringFound(table, others, sm, genLine, genCol, j);
    DocumentLists(table, others, sm, sources, names);
    var m := table[genLine][j];
    OriginOf(sm, frame, m, sources, names);
    FramePlaced(frame, sm, genLine, genCol, Position(m.src, m.line, m.col, NameOf(m)));
    var path := OriginalPath(frame, sm, m.src);
    if path.Str? { ContainsIff(path.s, "node_modules"); }
    NamedText(names, m);
  }

  lemma NamedText(names: seq<Json>, m: Mapping)
    ensures m.Named? && IsText(names, m.name) ==> names[m.name] == Str(names[m.name].s) && names[m.name].s != ""
  {
  }

  /** What is written into a frame whose position is found. */
  lemma FramePlaced(frame: seq<Entry>, sm: SourceMap, genLine: nat, genCol: nat, position: Position)
    requires FrameAtPosition(frame, genLine, genCol)
    requires LookupAt(sm, genLine, genCol) == Some(position) && 0 <= position.src < |sm.sources|
    ensures var out := SymbolicateFrame(frame, sm);
            var path, name := OriginalPath(frame, sm, position.src), OriginalName(sm, position.name);
            && Get(out, "filename") == Some(path)
            && Get(out, "lineno") == Some(Int(position.line + 1))
            && Get(out, "colno") == Some(Int(position.col + 1))
            && Get(out, "function") == (if name != "" then Some(Str(name)) else Get(frame, "function"))
            && Get(out, "raw_filename") == Some(ValueOf(frame, "filename"))
            && Get(out, "raw_lineno") == Get(frame, "lineno")
            && Get(out, "in_app") ==
                 (if path.Str? && Contains(path.s, "node_modules") then Some(Bool(false)) else Get(frame, "in_app"))
  {
    hide Get, SymbolicateFrame, OriginalName, OriginalPath, LookupAt, Contains, SourceContext;
    FrameRewritten(frame, sm, "filename");
    FrameRewritten(frame, sm, "lineno");
    FrameRewritten(frame, sm, "colno");
    FrameRewritten(frame, sm, "function");
    FrameRewritten(frame, sm, "raw_filename");
    FrameRewritten(frame, sm, "raw_lineno");
    FrameRewritten(frame, sm, "in_app");
  }

  /** A covering mapping whose source the document does not list leaves the frame as it came. */
  lemma UnlistedSourceKept(
      table: seq<seq<Mapping>>, others: seq<Entry>, sm: SourceMap, frame: seq<Entry>, genLine: nat, genCol: nat, j: int,
      sources: seq<Json>, names: seq<Json>)
    requires Parse(Document(table, others)) == Ok(sm)
    requires IsList(others, "sources", sources) && IsList(others, "names", names)
    requires genLine < |table| && FrameAtPosition(frame, genLine, genCol) && Covers(table[genLine], genCol, j)
    requires !(0 <= table[genLine][j].src < |sources|)
    ensures SymbolicateFrame(frame, sm) == frame
  {
    hide Get, LookupAt, Parse, Covers, IsList;
    CoversMeans(table[genLine], genCol, j);
    CoveringFound(table, others, sm, genLine, genCol, j);
    DocumentLists(table, others, sm, sources, names);
  }

  /** A list of up to five lines of a source, ending or starting next to `line`. */
  ghost predicate LinesAt(field: Option<Json>, lines: seq<string>, from: int, to: int)
    requires 0 <= from <= to <= |lines|
  {
    && field.Some? && field.value.Arr? && |field.value.items| == to - from
    && forall k :: 0 <= k < to - from ==> field.value.items[k] == Str(lines[from + k])
  }

  /** The embedded source lines around the origin become the frame's context: five before and after, as far as they go. */
  lemma ContextThroughDocument(
      table: seq<seq<Mapping>>, others: seq<Entry>, sm: SourceMap, frame: seq<Entry>, genLine: nat, genCol: nat, j: int,
      sources: seq<Json>, names: seq<Json>, contents: seq<Json>, lines: seq<string>)
    requires Parse(Document(table, others)) == Ok(sm)
    requires IsList(others, "sources", sources) && IsList(others, "names", names)
    requires Get(others, "sourcesContent") == Some(Arr(contents))
    requires genLine < |table| && FrameAtPosition(frame, genLine, genCol) && Covers(table[genLine], genCol, j)
    requires 0 <= table[genLine][j].src < |sources| && table[genLine][j].src < |contents|
    requires contents[table[genLine][j].src].Str?
    requires lines == Strings.Split(contents[table[genLine][j].src].s, '\n') && 0 <= table[genLine][j].line < |lines|
    ensures var out, line := SymbolicateFrame(frame, sm), table[genLine][j].line;
            && Get(out, "context_line") == Some(Str(lines[line]))
            && LinesAt(Get(out, "pre_context"), lines, if line < 5 then 0 else line - 5, line)
            && LinesAt(Get(out, "post_context"), lines, line + 1, if line + 6 > |lines| then |lines| else line + 6)
  {
    hide Get, SymbolicateFrame, LookupAt, Parse, Covers, IsList, Strings.Split, OriginalPath, OriginalName, Contains, Texts;
    CoversMeans(table[genLine], genCol, j);
    CoveringFound(table, others, sm, genLine, genCol, j);
    DocumentLists(table, others, sm, sources, names);
    var m := table[genLine][j];
    EmbeddedSource(table, others, sm, contents, m.src);
    ContextPlaced(frame, sm, genLine, genCol, Position(m.src, m.line, m.col, NameOf(m)));
    var c := SourceContext(sm, m.src, m.line);
    TextsAt(c.pre);
    TextsAt(c.post);
  }

  lemma EmbeddedSource(
      table: seq<seq<Mapping>>, others: seq<Entry>, sm: SourceMap, contents: seq<Json>, src: nat)
    requires Parse(Document(table, others)) == Ok(sm)
    requires Get(others, "sourcesContent") == Some(Arr(contents)) && src < |contents| && contents[src].Str?
    ensures src < |sm.sourcesContent| && sm.sourcesContent[src] == Some(contents[src].s)
  {
    hide Get, Parse;
    ParsedLists(Document(table, others), sm);
    DocumentFields(table, others);
  }

  lemma TextsAt(lines: seq<string>)
    ensures |Texts(lines)| == |lines| && forall k :: 0 <= k < |lines| ==> Texts(lines)[k] == Str(lines[k])
  {
  }

  lemma ContextPlaced(frame: seq<Entry>, sm: SourceMap, genLine: nat, genCol: nat, position: Position)
    requires FrameAtPosition(frame, genLine, genCol)
    requires LookupAt(sm, genLine, genCol) == Some(position) && 0 <= position.src < |sm.sources|
    requires SourceContext(sm, position.src, position.line).Context?
    ensures var out, c := SymbolicateFrame(frame, sm), SourceContext(sm, position.src, position.line);
            && Get(out, "context_line") == Some(Str(c.line))
            && Get(out, "pre_context") == Some(Arr(Texts(c.pre)))
            && Get(out, "post_context") == Some(Arr(Texts(c.post)))
  {
    hide Get, SymbolicateFrame, OriginalName, OriginalPath, LookupAt, Contains, SourceContext, Texts;
    FrameRewritten(frame, sm, "context_line");
    FrameRewritten(frame, sm, "pre_context");
    FrameRewritten(frame, sm, "post_context");
  }

  // ---------------------------------------------------------------------
  // The upload a frame is looked up in
  // ---------------------------------------------------------------------

  predicate IsMapFile(name: string) {
    |name| >= 4 && name[|name| - 4..] == ".map"
  }

  /** The map of an asset: the asset's name with `.map` behind it, unless it is a map itself. */
  lemma MapNameOf(name: string)
    ensures MapName(name) == if IsMapFile(name) then name else name + ".map"
    ensures IsMapFile(MapName(name))
  {
    if !IsMapFile(name) {
      assert (name + ".map")[|name|..] == ".map";
    }
  }

  /**
   A frame whose URL names an uploaded asset is moved to the origin of the
   mapping that covers it; without an upload, or with one that does not parse
   as a version 3 map, it is left as it came.
   */
  lemma FrameThroughUpload(
      path: string, name: string, suffix: string, raw: Json, store: Store, frame: seq<Entry>)
    requires CleanName(name) && IsSuffix(suffix) && !IsMapFile(name)
    requires Strings.Free(path, '?') && Strings.Free(path, '#')
    requires Get(frame, "filename") == Some(Str(path + "/" + name + suffix))
    ensures store(name + ".map") == Absent ==> SymbolicateItem(Obj(frame), store) == Some(Obj(frame))
    ensures store(name + ".map") == Load(raw) && Parse(raw).Ok? ==>
              SymbolicateItem(Obj(frame), store) == Some(Obj(SymbolicateFrame(frame, Parse(raw).value)))
    ensures store(name + ".map") == Load(raw) && Parse(raw) == Err(NotIterable) ==>
              SymbolicateItem(Obj(frame), store) == None
    ensures store(name + ".map") == Load(raw) && Parse(raw).Err? && Parse(raw) != Err(NotIterable) ==>
              SymbolicateItem(Obj(frame), store) == Some(Obj(frame))
  {
    hide Get, AssetName, Parse, SymbolicateFrame, CleanName, MapName;
    AssetOfUrl(path, name, suffix);
    MapNameOf(name);
  }
}
