/** Rewriting the frames of an exception chain through source maps. */
module Symbolicate {
  import opened Wrappers
  import opened Json
  import opened SourceMaps
  import opened Lookup
  import opened Exceptions
  import Strings

  // ---------------------------------------------------------------------
  // Writing several keys of a frame
  // ---------------------------------------------------------------------

  function SetAll(entries: seq<Entry>, writes: seq<Entry>): seq<Entry>
    decreases |writes|
  {
    if writes == [] then entries else SetAll(Set(entries, writes[0].key, writes[0].value), writes[1..])
  }

  function Written(writes: seq<Entry>, key: string): Option<Json> {
    if writes == [] then None
    else if Written(writes[1..], key).Some? then Written(writes[1..], key)
    else if writes[0].key == key then Some(writes[0].value)
    else None
  }

  lemma {:induction false} GetSetAll(entries: seq<Entry>, writes: seq<Entry>, key: string)
    ensures Get(SetAll(entries, writes), key)
         == if Written(writes, key).Some? then Written(writes, key) else Get(entries, key)
    decreases |writes|
  {
    if writes != [] {
      GetSetAll(Set(entries, writes[0].key, writes[0].value), writes[1..], key);
      GetSet(entries, writes[0].key, writes[0].value, key);
    }
  }

  // ---------------------------------------------------------------------
  // One frame
  // ---------------------------------------------------------------------

  predicate StartsAt(s: string, i: int, part: string) {
    0 <= i <= |s| - |part| && s[i..i + |part|] == part
  }

  predicate Contains(s: string, part: string) {
    exists i :: 0 <= i <= |s| && StartsAt(s, i, part)
  }

  /** The original position of a frame, when its numbers are there and the map resolves them. */
  function Resolve(frame: seq<Entry>, sm: SourceMap): Option<Position> {
    match (AsInt(Get(frame, "lineno")), AsInt(Get(frame, "colno")))
    case (Some(lineno), Some(colno)) =>
      (match LookupAt(sm, lineno - 1, if colno - 1 > 0 then colno - 1 else 0)
       case Some(position) => if 0 <= position.src < |sm.sources| then Some(position) else None
       case None => None)
    case _ => None
  }

  function OriginalPath(frame: seq<Entry>, sm: SourceMap, src: int): Json
    requires 0 <= src < |sm.sources|
  {
    if sm.sources[src] != "" then Str(sm.sources[src]) else OrNull(Get(frame, "filename"))
  }

  function OriginalName(sm: SourceMap, name: Option<int>): string {
    if name.Some? && 0 <= name.value < |sm.names| then sm.names[name.value] else ""
  }

  function Texts(lines: seq<string>): seq<Json> {
    seq(|lines|, i requires 0 <= i < |lines| => Str(lines[i]))
  }

  /** The assignments every resolved frame gets, in order. */
  function PlaceWrites(frame: seq<Entry>, path: Json, position: Position): seq<Entry> {
    [Entry("raw_filename", OrNull(Get(frame, "filename"))),
     Entry("raw_lineno", OrNull(Get(frame, "lineno"))),
     Entry("filename", path),
     Entry("lineno", Int(position.line + 1)),
     Entry("colno", Int(position.col + 1))]
  }

  function ContextWrites(context: Context): seq<Entry> {
    match context
    case NoContext => []
    case Context(line, pre, post) =>
      [Entry("context_line", Str(line)),
       Entry("pre_context", Arr(Texts(pre))),
       Entry("post_context", Arr(Texts(post)))]
  }

  /** The assignments that depend on what the map knows. */
  function ExtraWrites(path: Json, name: string, context: Context): seq<Entry> {
    (if name != "" then [Entry("function", Str(name))] else [])
    + (if path.Str? && Contains(path.s, "node_modules") then [Entry("in_app", Bool(false))] else [])
    + ContextWrites(context)
  }

  function Writes(frame: seq<Entry>, sm: SourceMap, position: Position): seq<Entry>
    requires 0 <= position.src < |sm.sources|
  {
    var path := OriginalPath(frame, sm, position.src);
    PlaceWrites(frame, path, position)
    + ExtraWrites(path, OriginalName(sm, position.name), SourceContext(sm, position.src, position.line))
  }

  function SymbolicateFrame(frame: seq<Entry>, sm: SourceMap): seq<Entry> {
    match Resolve(frame, sm)
    case None => frame
    case Some(position) => SetAll(frame, Writes(frame, sm, position))
  }

  lemma {:induction false} NotWritten(writes: seq<Entry>, key: string)
    requires forall i :: 0 <= i < |writes| ==> writes[i].key != key
    ensures Written(writes, key).None?
  {
    if writes != [] {
      NotWritten(writes[1..], key);
    }
  }

  lemma {:induction false} WrittenConcat(a: seq<Entry>, b: seq<Entry>, key: string)
    ensures Written(a + b, key) == if Written(b, key).Some? then Written(b, key) else Written(a, key)
  {
    if a == [] {
      assert a + b == b;
    } else {
      assert (a + b)[1..] == a[1..] + b;
      WrittenConcat(a[1..], b, key);
    }
  }

  lemma {:induction false} WrittenAt(writes: seq<Entry>, i: nat)
    requires i < |writes|
    requires forall j :: i < j < |writes| ==> writes[j].key != writes[i].key
    ensures Written(writes, writes[i].key) == Some(writes[i].value)
  {
    if i == 0 {
      NotWritten(writes[1..], writes[0].key);
    } else {
      WrittenAt(writes[1..], i - 1);
    }
  }

  /** What a resolved frame must hold under `key`, if symbolication always writes it. */
  function PlaceField(frame: seq<Entry>, path: Json, position: Position, key: string): Option<Json> {
    if key == "raw_filename" then Some(OrNull(Get(frame, "filename")))
    else if key == "raw_lineno" then Some(OrNull(Get(frame, "lineno")))
    else if key == "filename" then Some(path)
    else if key == "lineno" then Some(Int(position.line + 1))
    else if key == "colno" then Some(Int(position.col + 1))
    else None
  }

  lemma PlaceWritten(frame: seq<Entry>, path: Json, position: Position, key: string)
    ensures Written(PlaceWrites(frame, path, position), key) == PlaceField(frame, path, position, key)
  {
    hide Get, OrNull, Written;
    var writes := PlaceWrites(frame, path, position);
    if key == "raw_filename" { WrittenAt(writes, 0); }
    else if key == "raw_lineno" { WrittenAt(writes, 1); }
    else if key == "filename" { WrittenAt(writes, 2); }
    else if key == "lineno" { WrittenAt(writes, 3); }
    else if key == "colno" { WrittenAt(writes, 4); }
    else { NotWritten(writes, key); }
  }

  /** What a resolved frame must hold under `key` when the map knows it. */
  function ExtraField(path: Json, name: string, context: Context, key: string): Option<Json> {
    if key == "function" then (if name != "" then Some(Str(name)) else None)
    else if key == "in_app" then (if path.Str? && Contains(path.s, "node_modules") then Some(Bool(false)) else None)
    else match context
      case NoContext => None
      case Context(line, pre, post) =>
        if key == "context_line" then Some(Str(line))
        else if key == "pre_context" then Some(Arr(Texts(pre)))
        else if key == "post_context" then Some(Arr(Texts(post)))
        else None
  }

  lemma OneWritten(entry: Entry, key: string)
    ensures Written([entry], key) == if key == entry.key then Some(entry.value) else None
  {
    assert [entry][1..] == [];
  }

  lemma ContextWritten(context: Context, key: string)
    ensures Written(ContextWrites(context), key)
         == match context
            case NoContext => None
            case Context(line, pre, post) =>
              if key == "context_line" then Some(Str(line))
              else if key == "pre_context" then Some(Arr(Texts(pre)))
              else if key == "post_context" then Some(Arr(Texts(post)))
              else None
  {
    hide Texts, Written;
    var writes := ContextWrites(context);
    if context.Context? && key == "context_line" { WrittenAt(writes, 0); }
    else if context.Context? && key == "pre_context" { WrittenAt(writes, 1); }
    else if context.Context? && key == "post_context" { WrittenAt(writes, 2); }
    else { NotWritten(writes, key); }
  }

  lemma ExtraWritten(path: Json, name: string, context: Context, key: string)
    ensures Written(ExtraWrites(path, name, context), key) == ExtraField(path, name, context, key)
  {
    hide Contains, Texts, ContextWrites;
    var named := if name != "" then [Entry("function", Str(name))] else [];
    var inApp := if path.Str? && Contains(path.s, "node_modules") then [Entry("in_app", Bool(false))] else [];
    WrittenConcat(named + inApp, ContextWrites(context), key);
    WrittenConcat(named, inApp, key);
    ContextWritten(context, key);
    OneWritten(Entry("function", Str(name)), key);
    OneWritten(Entry("in_app", Bool(false)), key);
  }

  /** What symbolication writes under `key` into a frame that resolves to `position`. */
  function WrittenField(frame: seq<Entry>, sm: SourceMap, position: Position, key: string): Option<Json>
    requires 0 <= position.src < |sm.sources|
  {
    var path := OriginalPath(frame, sm, position.src);
    var place := PlaceField(frame, path, position, key);
    if place.Some? then place
    else ExtraField(path, OriginalName(sm, position.name), SourceContext(sm, position.src, position.line), key)
  }

  /**
   A resolved frame names the position the map gives for its minified line and
   column, 1-based, keeps the minified values under `raw_`, takes the map's
   name for the function when it has one and its source lines as context when
   they are embedded, and is not in-app when the source is under
   `node_modules`; an unresolved frame, and every other key, is left alone.
   */
  lemma FrameRewritten(frame: seq<Entry>, sm: SourceMap, key: string)
    ensures Resolve(frame, sm).None? ==> SymbolicateFrame(frame, sm) == frame
    ensures Resolve(frame, sm).Some? ==>
      var field := WrittenField(frame, sm, Resolve(frame, sm).value, key);
      Get(SymbolicateFrame(frame, sm), key) == if field.Some? then field else Get(frame, key)
  {
    hide Get, SetAll, PlaceWrites, ExtraWrites, Written, OriginalPath, OriginalName, LookupAt, SourceContext, PlaceField, ExtraField;
    if Resolve(frame, sm).Some? {
      var position := Resolve(frame, sm).value;
      var path, name := OriginalPath(frame, sm, position.src), OriginalName(sm, position.name);
      var context := SourceContext(sm, position.src, position.line);
      GetSetAll(frame, Writes(frame, sm, position), key);
      WrittenConcat(PlaceWrites(frame, path, position), ExtraWrites(path, name, context), key);
      ExtraWritten(path, name, context, key);
      PlaceWritten(frame, path, position, key);
      PlaceAndExtraApart(frame, path, position, name, context, key);
    }
  }

  lemma PlaceAndExtraApart(
      frame: seq<Entry>, path: Json, position: Position, name: string, context: Context, key: string)
    ensures PlaceField(frame, path, position, key).Some? ==> ExtraField(path, name, context, key).None?
  {
  }

  // ---------------------------------------------------------------------
  // From an encoded table to a rewritten frame
  // ---------------------------------------------------------------------

  /** The value is the number `n`; a boolean is the number 1 or 0. */
  predicate IsNumber(value: Option<Json>, n: int) {
    value == Some(Int(n)) || (n == 1 && value == Some(Bool(true))) || (n == 0 && value == Some(Bool(false)))
  }

  predicate IsNoNumber(value: Option<Json>) {
    value.Some? ==> !value.value.Int? && !value.value.Bool?
  }

  /** The frame's 1-based numbers stand for a 0-based line and column; a column that is not positive is the first. */
  predicate FrameAtPosition(frame: seq<Entry>, genLine: int, genCol: int) {
    && IsNumber(Get(frame, "lineno"), genLine + 1)
    && (IsNumber(Get(frame, "colno"), genCol + 1) || (genCol == 0 && ColumnUnknown(Get(frame, "colno"))))
  }

  predicate ColumnUnknown(value: Option<Json>) {
    value == Some(Bool(false)) || (value.Some? && value.value.Int? && value.value.n <= 0)
  }

  /** A frame whose line or column is no number is left as it came. */
  lemma FrameWithoutNumbersKept(frame: seq<Entry>, sm: SourceMap)
    requires IsNoNumber(Get(frame, "lineno")) || IsNoNumber(Get(frame, "colno"))
    ensures SymbolicateFrame(frame, sm) == frame
  {
    hide Get, LookupAt;
  }

  lemma EncodedLookup(table: seq<seq<Mapping>>, others: seq<Entry>, sm: SourceMap, genLine: nat, genCol: int)
    requires Parse(Document(table, others)) == Ok(sm) && genLine < |table|
    ensures Answers(Bound(table[genLine]), genCol, LookupAt(sm, genLine, genCol))
  {
    hide ReadRows, Index, EncodeMappings, Iterate, Get, Strings.Split, MapItems, LookupAt, Answers, Bound;
    MappingsRoundTrip(table);
    DocumentFields(table, others);
    IndexedLookup(BoundRows(table), sm, genLine, genCol);
  }

  /**
   Compiler to dashboard: encode a table of mappings, parse the document, and
   rewrite a frame that stands at a generated position. The frame then names
   the source, line, column and name of the last mapping among those with the
   greatest column at or before it; where the map leaves the source or the name
   empty it keeps its own.
   */
  lemma FrameThroughEncodedMap(
      table: seq<seq<Mapping>>, others: seq<Entry>, sm: SourceMap, frame: seq<Entry>, genLine: nat, genCol: nat, i: int)
    requires Parse(Document(table, others)) == Ok(sm)
    requires genLine < |table| && FrameAtPosition(frame, genLine, genCol) && IsBest(Bound(table[genLine]), genCol, i)
    requires 0 <= Bound(table[genLine])[i].src < |sm.sources|
    ensures var origin := Bound(table[genLine])[i];
            var out := SymbolicateFrame(frame, sm);
            && Get(out, "filename") == Some(if sm.sources[origin.src] != "" then Str(sm.sources[origin.src])
                                            else OrNull(Get(frame, "filename")))
            && Get(out, "lineno") == Some(Int(origin.line + 1))
            && Get(out, "colno") == Some(Int(origin.col + 1))
            && Get(out, "function") == (if OriginalName(sm, origin.name) != "" then Some(Str(OriginalName(sm, origin.name)))
                                        else Get(frame, "function"))
  {
    hide Get, SymbolicateFrame, OriginalName, LookupAt, Parse, Bound, IsBest;
    EncodedLookup(table, others, sm, genLine, genCol);
    var row := Bound(table[genLine]);
    BestIsFound(row, genCol, i, LookupAt(sm, genLine, genCol));
    FrameRewritten(frame, sm, "filename");
    FrameRewritten(frame, sm, "lineno");
    FrameRewritten(frame, sm, "colno");
    FrameRewritten(frame, sm, "function");
  }

  lemma BestIsFound(row: Row, genCol: int, i: int, r: Option<Position>)
    requires IsBest(row, genCol, i) && Answers(row, genCol, r)
    ensures r == Some(PositionOf(row[i]))
  {
    if r.Some? {
      var j :| IsBest(row, genCol, j) && r.value == PositionOf(row[j]);
      BestIsUnique(row, genCol, i, j);
    }
  }

  lemma NoneFound(row: Row, genCol: int, r: Option<Position>)
    requires Answers(row, genCol, r) && forall i :: 0 <= i < |row| ==> row[i].genCol > genCol
    ensures r.None?
  {
  }

  /** A frame before the first mapping of its line is left as it came. */
  lemma FrameBeforeMappingsKept(
      table: seq<seq<Mapping>>, others: seq<Entry>, sm: SourceMap, frame: seq<Entry>, genLine: nat, genCol: nat)
    requires Parse(Document(table, others)) == Ok(sm)
    requires genLine < |table| && FrameAtPosition(frame, genLine, genCol)
    requires forall i :: 0 <= i < |Bound(table[genLine])| ==> Bound(table[genLine])[i].genCol > genCol
    ensures SymbolicateFrame(frame, sm) == frame
  {
    hide Get, LookupAt, Parse, Bound, Answers;
    EncodedLookup(table, others, sm, genLine, genCol);
    NoneFound(Bound(table[genLine]), genCol, LookupAt(sm, genLine, genCol));
  }

  // ---------------------------------------------------------------------
  // Finding the map of a frame
  // ---------------------------------------------------------------------

  /** What the map store holds under a file name; reading it can raise out of the loader. */
  datatype Loaded = Absent | Present(sm: SourceMap) | Raises

  /** How the loader treats a decoded map file: ValueError is caught, TypeError is not. */
  function Load(raw: Json): Loaded {
    match Parse(raw)
    case Ok(sm) => Present(sm)
    case Err(NotIterable) => Raises
    case Err(_) => Absent
  }

  /** A map whose `sources` is a nonzero number raises out of the loader instead of being skipped. */
  lemma NumericSourcesRaise(n: int)
    requires n != 0
    ensures Load(Document([], [Entry("sources", Int(n))])) == Raises
  {
    hide EncodeMappings, Get, ReadRows, Strings.Split;
    DocumentFields([], [Entry("sources", Int(n))]);
    assert [Entry("sources", Int(n))][0] == Entry("sources", Int(n));
    GetAt([Entry("sources", Int(n))], 0);
  }

  // A document of one mapping: the first column of the first line is line 1, column 1 of one named source.

  const ONE_MAPPING: seq<seq<Mapping>> := [[Mapped(0, 0, 0, 0)]]

  function OneSource(name: string): seq<Entry> {
    [Entry("sources", Arr([Str(name)]))]
  }

  function OneSourceDocument(name: string): Json {
    Document(ONE_MAPPING, OneSource(name))
  }

  lemma OneItem(name: string)
    ensures MapItems(TextOrEmpty, [Str(name)]) == [name]
  {
    var items := [Str(name)];
    var out := MapItems(TextOrEmpty, items);
    assert items[0] == Str(name);
    assert out[0] == TextOrEmpty(items[0]) == name;
  }

  lemma OneSourceMap(name: string) returns (sm: SourceMap)
    ensures Parse(OneSourceDocument(name)) == Ok(sm) && Load(OneSourceDocument(name)) == Present(sm)
    ensures sm.sources == [name] && LookupAt(sm, 0, 0) == Some(Position(0, 0, 0, None))
  {
    hide ReadRows, Index, EncodeMappings, Get, LookupAt, HoldsLine;
    SingleEntry(OneSource(name)[0]);
    ParseRoundTrip(ONE_MAPPING, OneSource(name));
    DocumentFields(ONE_MAPPING, OneSource(name));
    sm := Parse(OneSourceDocument(name)).value;
    OneItem(name);
    EncodedLookup(ONE_MAPPING, OneSource(name), sm, 0, 0);
    assert ONE_MAPPING[0][1..] == [];
    assert Bound(ONE_MAPPING[0]) == [Segment(0, 0, 0, 0, None)];
    BestIsFound([Segment(0, 0, 0, 0, None)], 0, 0, LookupAt(sm, 0, 0));
  }

  function LastPiece(s: string, sep: char): string {
    var parts := Strings.Split(s, sep);
    parts[|parts| - 1]
  }

  /** The asset name of a frame's URL, if it is a clean file name. */
  function AssetName(filename: Option<Json>): Option<string> {
    match filename
    case Some(Str(s)) =>
      var name := LastPiece(Strings.Split(Strings.Split(s, '?')[0], '#')[0], '/');
      if name == "" || Contains(name, "..") || name == "." || '\\' in name || '\0' in name then None
      else Some(name)
    case _ => None
  }

  /** A name the store may be asked for. */
  predicate CleanName(name: string) {
    && name != "" && name != "." && !Contains(name, "..") && '\\' !in name && '\0' !in name
    && Strings.Free(name, '/') && Strings.Free(name, '?') && Strings.Free(name, '#')
  }

  predicate IsSuffix(suffix: string) {
    suffix == "" || suffix[0] == '?' || suffix[0] == '#'
  }

  lemma CutSuffix(front: string, suffix: string)
    requires Strings.Free(front, '?') && Strings.Free(front, '#') && IsSuffix(suffix)
    ensures Strings.Split(Strings.Split(front + suffix, '?')[0], '#')[0] == front
  {
    Strings.SplitFirst(front, suffix, '?');
    var kept := Strings.Split(suffix, '?')[0];
    Strings.SplitFirst(front, kept, '#');
    assert Strings.Split(kept, '#')[0] == "";
  }

  /** A frame's URL names its asset whatever the path in front of it and the query or fragment behind it. */
  lemma AssetOfUrl(path: string, name: string, suffix: string)
    requires CleanName(name) && IsSuffix(suffix)
    requires Strings.Free(path, '?') && Strings.Free(path, '#')
    ensures AssetName(Some(Str(path + "/" + name + suffix))) == Some(name)
    ensures AssetName(Some(Str(name + suffix))) == Some(name)
  {
    hide Strings.Split, Contains;
    CutSuffix(path + "/" + name, suffix);
    CutSuffix(name, suffix);
    Strings.SplitLast(path, name, '/');
    Strings.SplitFree(name, '/');
  }

  /** What a frame's file name leads to is never a path. */
  lemma AssetIsClean(filename: Option<Json>)
    ensures AssetName(filename).Some? ==> CleanName(AssetName(filename).value)
  {
    hide Contains;
    if AssetName(filename).Some? {
      var s := filename.value.s;
      var front := Strings.Split(s, '?')[0];
      var tail := Strings.Split(front, '#')[0];
      PieceStaysFree(front, '#', '?');
      PieceStaysFree(tail, '/', '?');
      PieceStaysFree(tail, '/', '#');
    }
  }

  /** Splitting brings no new character into a piece. */
  lemma {:induction false} PieceStaysFree(s: string, sep: char, other: char)
    requires Strings.Free(s, other)
    ensures forall i :: 0 <= i < |Strings.Split(s, sep)| ==> Strings.Free(Strings.Split(s, sep)[i], other)
  {
    if s != "" {
      PieceStaysFree(s[1..], sep, other);
    }
  }

  function MapName(asset: string): string {
    if |asset| >= 4 && asset[|asset| - 4..] == ".map" then asset else asset + ".map"
  }

  /** The maps of one release. */
  type Store = string -> Loaded

  /** One element of a frame list; None when loading its map raises. */
  function SymbolicateItem(frame: Json, store: Store): Option<Json> {
    if !frame.Obj? then Some(frame)
    else match AssetName(Get(frame.entries, "filename"))
      case None => Some(frame)
      case Some(asset) =>
        match store(MapName(asset))
        case Absent => Some(frame)
        case Raises => None
        case Present(sm) => Some(Obj(SymbolicateFrame(frame.entries, sm)))
  }

  function SymbolicateItems(frames: seq<Json>, store: Store): (r: Option<seq<Json>>)
    ensures r.Some? ==> |r.value| == |frames|
    ensures r.Some? ==> forall i :: 0 <= i < |frames| ==> SymbolicateItem(frames[i], store) == Some(r.value[i])
    ensures r.None? ==> exists i :: 0 <= i < |frames| && SymbolicateItem(frames[i], store).None?
  {
    if frames == [] then Some([])
    else match SymbolicateItem(frames[0], store)
      case None => None
      case Some(first) =>
        match SymbolicateItems(frames[1..], store)
        case None =>
          assert exists i :: 0 <= i < |frames| - 1 && SymbolicateItem(frames[1..][i], store).None?;
          assert forall i :: 0 <= i < |frames| - 1 ==> frames[1..][i] == frames[i + 1];
          None
        case Some(rest) => Some([first] + rest)
  }

  /** The loop over the frames of one exception. */
  method RewriteFrames(frames: seq<Json>, store: Store) returns (r: Option<seq<Json>>)
    ensures r == SymbolicateItems(frames, store)
  {
    hide SymbolicateItem;
    var newFrames: seq<Json> := [];
    for i := 0 to |frames|
      invariant |newFrames| == i
      invariant forall k :: 0 <= k < i ==> SymbolicateItem(frames[k], store) == Some(newFrames[k])
    {
      var item := SymbolicateItem(frames[i], store);
      if item.None? {
        return None;
      }
      newFrames := newFrames + [item.value];
    }
    ghost var spec := SymbolicateItems(frames, store);
    assert spec.Some? && spec.value == newFrames;
    return Some(newFrames);
  }

  // ---------------------------------------------------------------------
  // The cause chain and the envelope
  // ---------------------------------------------------------------------

  /** The stack trace of an exception after symbolication; None when a load raises. */
  function SymbolicateTrace(trace: Option<Json>, store: Store): Option<Option<Json>> {
    match trace
    case Some(Obj(entries)) =>
      (match Get(entries, "frames")
       case Some(Arr(frames)) =>
         (match SymbolicateItems(frames, store)
          case None => None
          case Some(items) => Some(Some(Obj(Set(entries, "frames", Arr(items))))))
       case _ => Some(trace))
    case _ => Some(trace)
  }

  /** An exception and, recursively, its causes; None when a load raises anywhere. */
  function SymbolicateException(x: Json, store: Store): (r: Option<Json>)
    requires x.Obj?
    ensures r.Some? ==> r.value.Obj?
    decreases x
  {
    match SymbolicateTrace(Get(x.entries, "stacktrace"), store)
    case None => None
    case Some(trace) =>
      var out := Put(x.entries, "stacktrace", trace);
      match Cause(x)
      case None => Some(Obj(out))
      case Some(cause) =>
        match SymbolicateException(cause, store)
        case None => None
        case Some(newCause) => Some(Obj(Set(out, "cause", newCause)))
  }

  /** Symbolication never fails an event: an error inside returns the envelope as it came. */
  function SymbolicateEnvelope(env: seq<Entry>, stores: string -> Store): seq<Entry> {
    match (Get(env, "platform"), Get(env, "exception"), Get(env, "release"))
    case (Some(Str(platform)), Some(Obj(entries)), Some(Str(release))) =>
      if platform != "javascript" || release == "" then env
      else
        (match SymbolicateException(Obj(entries), stores(release))
         case None => env
         case Some(x) => Set(env, "exception", x))
    case _ => env
  }
}
