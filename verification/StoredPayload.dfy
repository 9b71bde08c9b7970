/**
 When the payload that is stored, normalised first and symbolicated after, is
 still within the caps that normalisation applied.
 */
module StoredPayload {
  import opened Wrappers
  import opened Json
  import opened Exceptions
  import opened Normalize
  import opened SourceMaps
  import opened Lookup
  import opened Symbolicate
  import opened Grouping

  // ---------------------------------------------------------------------
  // One frame
  // ---------------------------------------------------------------------

  predicate AllWithin(lines: seq<string>, limit: nat) {
    forall i :: 0 <= i < |lines| ==> |lines[i]| <= limit
  }

  predicate ContextWithin(context: Context) {
    match context
    case NoContext => true
    case Context(line, pre, post) =>
      |line| <= CONTEXT_LINE_MAX && AllWithin(pre, CONTEXT_LINE_MAX) && AllWithin(post, CONTEXT_LINE_MAX)
  }

  /** What the map says of a position is within the caps: source name, function name, source lines. */
  predicate MapWithin(sm: SourceMap, position: Position)
    requires 0 <= position.src < |sm.sources|
  {
    && |sm.sources[position.src]| <= FILENAME_MAX
    && |OriginalName(sm, position.name)| <= FUNCTION_MAX
    && ContextWithin(SourceContext(sm, position.src, position.line))
  }

  lemma TextsFit(lines: seq<string>)
    ensures LinesFit(Some(Arr(Texts(lines)))) <==> AllWithin(lines, CONTEXT_LINE_MAX)
  {
    var texts := Texts(lines);
    assert forall i :: 0 <= i < |lines| ==> texts[i] == Str(lines[i]);
  }

  lemma PathFits(frame: seq<Entry>, sm: SourceMap, position: Position)
    requires 0 <= position.src < |sm.sources| && OptionalTextFits(Get(frame, "filename"), FILENAME_MAX)
    ensures TextFits(OriginalPath(frame, sm, position.src), FILENAME_MAX) <==> |sm.sources[position.src]| <= FILENAME_MAX
  {
    hide Get;
  }

  /** The five capped fields of a resolved frame. */
  lemma CappedFields(frame: seq<Entry>, sm: SourceMap)
    requires Resolve(frame, sm).Some?
    ensures var position := Resolve(frame, sm).value;
            var out := SymbolicateFrame(frame, sm);
            var name := OriginalName(sm, position.name);
            var context := SourceContext(sm, position.src, position.line);
            && Get(out, "filename") == Some(OriginalPath(frame, sm, position.src))
            && Get(out, "function") == (if name != "" then Some(Str(name)) else Get(frame, "function"))
            && Get(out, "context_line") == (if context.Context? then Some(Str(context.line)) else Get(frame, "context_line"))
            && Get(out, "pre_context") == (if context.Context? then Some(Arr(Texts(context.pre))) else Get(frame, "pre_context"))
            && Get(out, "post_context") == (if context.Context? then Some(Arr(Texts(context.post))) else Get(frame, "post_context"))
  {
    hide Get, SymbolicateFrame, OriginalName, OriginalPath, SourceContext, Resolve, Contains, Texts;
    FrameRewritten(frame, sm, "filename");
    FrameRewritten(frame, sm, "function");
    FrameRewritten(frame, sm, "context_line");
    FrameRewritten(frame, sm, "pre_context");
    FrameRewritten(frame, sm, "post_context");
  }

  /** A resolved frame stays within its limits exactly when what the map says of its position is. */
  lemma ResolvedFrameFitsIff(frame: seq<Entry>, sm: SourceMap)
    requires FieldsFit(frame) && Resolve(frame, sm).Some?
    ensures FieldsFit(SymbolicateFrame(frame, sm)) <==> MapWithin(sm, Resolve(frame, sm).value)
  {
    hide Get, SymbolicateFrame, OriginalName, OriginalPath, SourceContext, Resolve, Texts, LinesFit, AllWithin;
    var position := Resolve(frame, sm).value;
    ResolvedInRange(frame, sm);
    CappedFields(frame, sm);
    PathFits(frame, sm, position);
    var context := SourceContext(sm, position.src, position.line);
    if context.Context? {
      TextsFit(context.pre);
      TextsFit(context.post);
    }
  }

  lemma ResolvedInRange(frame: seq<Entry>, sm: SourceMap)
    requires Resolve(frame, sm).Some?
    ensures 0 <= Resolve(frame, sm).value.src < |sm.sources|
  {
    hide Get, LookupAt;
  }

  // ---------------------------------------------------------------------
  // One stack trace
  // ---------------------------------------------------------------------

  /** The map found for an element of a frame list, if the element is a frame that has one. */
  function MapOf(frame: Json, store: Store): Option<SourceMap> {
    if !frame.Obj? then None
    else match AssetName(Get(frame.entries, "filename"))
      case None => None
      case Some(asset) =>
        match store(MapName(asset))
        case Present(sm) => Some(sm)
        case _ => None
  }

  predicate FrameMapWithin(frame: Json, store: Store) {
    match MapOf(frame, store)
    case None => true
    case Some(sm) =>
      match Resolve(frame.entries, sm)
      case None => true
      case Some(position) => MapWithin(sm, position)
  }

  lemma ItemFitsIff(frame: Json, store: Store)
    requires FrameFits(frame) && SymbolicateItem(frame, store).Some?
    ensures FrameFits(SymbolicateItem(frame, store).value) <==> FrameMapWithin(frame, store)
  {
    hide Get, AssetName, MapName, Resolve, FieldsFit, SymbolicateFrame, MapWithin;
    var sm := MapOf(frame, store);
    if sm.Some? {
      if Resolve(frame.entries, sm.value).Some? {
        ResolvedFrameFitsIff(frame.entries, sm.value);
      } else {
        FrameRewritten(frame.entries, sm.value, "");
      }
    }
  }

  predicate FramesMapWithin(frames: seq<Json>, store: Store) {
    forall i :: 0 <= i < |frames| ==> FrameMapWithin(frames[i], store)
  }

  lemma ItemsFitIff(frames: seq<Json>, store: Store)
    requires FramesFit(frames) && SymbolicateItems(frames, store).Some?
    ensures FramesFit(SymbolicateItems(frames, store).value) <==> FramesMapWithin(frames, store)
  {
    hide SymbolicateItem, SymbolicateItems, FrameFits, FrameMapWithin;
    var out := SymbolicateItems(frames, store).value;
    forall i | 0 <= i < |frames| ensures FrameFits(out[i]) <==> FrameMapWithin(frames[i], store) {
      ItemFitsIff(frames[i], store);
    }
  }

  predicate TraceMapWithin(trace: Option<Json>, store: Store) {
    match trace
    case Some(Obj(entries)) =>
      (match Get(entries, "frames")
       case Some(Arr(frames)) => FramesMapWithin(frames, store)
       case _ => true)
    case _ => true
  }

  lemma TraceFitsIff(trace: Option<Json>, store: Store)
    requires TraceFits(trace) && !TraceRaises(trace, store)
    ensures TraceFits(SymbolicateTrace(trace, store).value) <==> TraceMapWithin(trace, store)
  {
    hide Get, Set, FramesFit, FramesMapWithin, SymbolicateItems, TraceRaises;
    TraceRaisesIff(trace, store);
    match trace
    case Some(Obj(entries)) =>
      match Get(entries, "frames") {
        case Some(Arr(frames)) =>
          ItemsFitIff(frames, store);
          GetSet(entries, "frames", Arr(SymbolicateItems(frames, store).value), "frames");
        case _ =>
      }
    case _ =>
  }

  // ---------------------------------------------------------------------
  // The cause chain and the envelope
  // ---------------------------------------------------------------------

  predicate ChainMapWithin(x: Json, store: Store)
    requires x.Obj?
    decreases x
  {
    && TraceMapWithin(Get(x.entries, "stacktrace"), store)
    && (Cause(x).Some? ==> ChainMapWithin(Cause(x).value, store))
  }

  lemma {:induction false} ChainFitsIff(x: Json, depth: nat, store: Store)
    requires x.Obj? && ExceptionFits(x, depth) && !ChainRaises(x, store)
    ensures SymbolicateException(x, store).Some?
    ensures ExceptionFits(SymbolicateException(x, store).value, depth) <==> ChainMapWithin(x, store)
    decreases x
  {
    hide Get, SymbolicateException, SymbolicateTrace, TraceFits, TraceMapWithin;
    if Cause(x).Some? {
      ChainFitsIff(Cause(x).value, depth + 1, store);
    }
    SymbolicatedField(x, store, "stacktrace");
    SymbolicatedField(x, store, "cause");
    TraceFitsIff(Get(x.entries, "stacktrace"), store);
    var y := SymbolicateException(x, store).value;
    if Cause(x).Some? {
      assert Cause(y) == SymbolicateException(Cause(x).value, store);
    } else {
      assert Get(y.entries, "cause").None?;
    }
  }

  /** What the stored payload of an envelope is. */
  function Stored(env: seq<Entry>, stores: string -> Store): seq<Entry> {
    SymbolicateEnvelope(NormalizeEnvelope(env), stores)
  }

  /**
   The maps the worker consults are within the caps: no JavaScript event of a
   release, or a map load of the normalised chain raises, or every resolved
   frame of it finds names and lines that fit.
   */
  predicate MapsWithin(env: seq<Entry>, stores: string -> Store) {
    match (Get(env, "exception"), StoreOf(env, stores))
    case (Some(Obj(entries)), Some(store)) =>
      var x := NormalizeException(Obj(entries), 1);
      ChainRaises(x, store) || ChainMapWithin(x, store)
    case _ => true
  }

  /** The stored payload is within every cap normalisation applies exactly when the maps that rewrote its frames are. */
  lemma StoredPayloadFitsIff(env: seq<Entry>, stores: string -> Store)
    ensures EnvelopeFits(Stored(env, stores)) <==> MapsWithin(env, stores)
  {
    hide Get, NormalizeEnvelope, SymbolicateEnvelope, NormalizeException, SymbolicateException, ExceptionFits, ChainRaises,
      ChainMapWithin, StoreOf, OptionalTextFits, OptionalTagsFit, BreadcrumbsFit;
    var normalized := NormalizeEnvelope(env);
    NormalizedEnvelopeFits(env);
    NormalizedEnvelopeField(env, "exception");
    NormalizedHeader(env, stores);
    match Get(env, "exception")
    case Some(Obj(entries)) =>
      var x := NormalizeException(Obj(entries), 1);
      SymbolicatedHeader(normalized, x, stores);
      NormalizedExceptionFits(Obj(entries), 1);
      if StoreOf(env, stores).Some? {
        SymbolicatedRoot(x, StoreOf(env, stores).value);
        if !ChainRaises(x, StoreOf(env, stores).value) {
          ChainFitsIff(x, 1, StoreOf(env, stores).value);
        }
      }
    case _ => NoExceptionKept(normalized, stores);
  }

  // ---------------------------------------------------------------------
  // An upload that breaks a cap
  // ---------------------------------------------------------------------

  /** Longer than a file name may be. */
  function LongName(): (name: string)
    ensures |name| > FILENAME_MAX
  {
    seq(300, i => 's')
  }

  function LongMaps(name: string): Loaded {
    Load(OneSourceDocument(LongName()))
  }

  /** Every map uploaded maps its first position to a source of that name. */
  function LongUploads(release: string): Store {
    LongMaps
  }

  /** The frame of file `a` at its first position resolves to the long name. */
  lemma LongFrame(sm: SourceMap, store: Store)
    requires sm.sources == [LongName()] && LookupAt(sm, 0, 0) == Some(Position(0, 0, 0, None))
    requires store("a.map") == Present(sm)
    ensures SymbolicateItem(FrameAt("a"), store).Some? && !FrameMapWithin(FrameAt("a"), store)
  {
    hide Get, LookupAt, AssetName, MapName, SymbolicateFrame, ContextWithin, OriginalName;
    FrameFields("a");
    LetterAssetName('a');
    assert "a" == ['a'] && ['a'] + ".map" == "a.map";
    assert Resolve(FrameAt("a").entries, sm) == Some(Position(0, 0, 0, None));
  }

  lemma LongChain(sm: SourceMap, store: Store)
    requires sm.sources == [LongName()] && LookupAt(sm, 0, 0) == Some(Position(0, 0, 0, None))
    requires store("a.map") == Present(sm)
    ensures var x := Obj(Framed("a"));
            ExceptionFits(x, 1) && !ChainRaises(x, store) && !ChainMapWithin(x, store)
  {
    hide Get, LookupAt, SymbolicateItem, SymbolicateTrace, FrameMapWithin, FramesFit, NormalizeTrace, TraceRaises;
    var x := Obj(Framed("a"));
    var frames := [FrameAt("a")];
    LongFrame(sm, store);
    FramedTrace("a", store);
    NormalizedTraceFits(Get(x.entries, "stacktrace"));
    SingleEntry(x.entries[0]);
    SingleEntry(Entry("frames", Arr(frames)));
    assert !FrameMapWithin(frames[0], store);
  }

  lemma MinifiedFits()
    requires ExceptionFits(Obj(Framed("a")), 1)
    ensures EnvelopeFits(MinifiedEvent())
  {
    hide Get, ExceptionFits, MinifiedEvent, TagsFit;
    MinifiedFields(LongUploads);
  }

  lemma LongMapsUsed()
    ensures !MapsWithin(MinifiedEvent(), LongUploads) && ExceptionFits(Obj(Framed("a")), 1)
  {
    hide Get, NormalizeException, ExceptionFits, ChainRaises, ChainMapWithin, Load, StoreOf, MinifiedEvent, LongName, OneSourceDocument;
    var sm := OneSourceMap(LongName());
    assert LongMaps("a.map") == Present(sm);
    MinifiedFields(LongUploads);
    LongChain(sm, LongMaps);
    FittingExceptionFixed(Obj(Framed("a")), 1);
  }

  /**
   An event within every cap normalisation applies is stored with one broken:
   an uploaded map names a source too long.
   */
  lemma StoredPayloadBreaksCap()
    ensures EnvelopeFits(MinifiedEvent()) && !EnvelopeFits(Stored(MinifiedEvent(), LongUploads))
  {
    hide EnvelopeFits, ExceptionFits, MapsWithin, Stored, MinifiedEvent;
    LongMapsUsed();
    MinifiedFits();
    StoredPayloadFitsIff(MinifiedEvent(), LongUploads);
  }
}
