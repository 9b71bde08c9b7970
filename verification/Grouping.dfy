/** Fingerprint signatures, and their stability when an exception is wrapped. */
module Grouping {
  import opened Wrappers
  import opened Json
  import opened Exceptions
  import opened FrameSelection
  import opened Normalize
  import opened Symbolicate
  import opened SourceMaps
  import Lookup
  import Strings

  /** What is hashed: equal signatures give equal fingerprints. */
  datatype Signature =
    | OfException(platform: Json, kind: Json, frames: seq<(Json, Json)>)
    | OfMessage(platform: Json, level: Json, message: string)

  // ---------------------------------------------------------------------
  // The signature of one exception
  // ---------------------------------------------------------------------

  /** `for frame in frames`: None when the value cannot be iterated. */
  function FrameList(trace: Option<Json>): Option<seq<Json>> {
    match trace
    case Some(Obj(entries)) =>
      (match Get(entries, "frames")
       case None => Some([])
       case Some(Arr(frames)) => Some(frames)
       case Some(Str(_)) => Some([])
       case Some(Obj(_)) => Some([])
       case Some(_) => None)
    case _ => Some([])
  }

  function Location(frame: seq<Entry>): (Json, Json) {
    (OrNull(Get(frame, "filename")), OrNull(Get(frame, "function")))
  }

  function Locations(frames: seq<Json>): seq<(Json, Json)>
    requires forall i :: 0 <= i < |frames| ==> frames[i].Obj?
  {
    seq(|frames|, i requires 0 <= i < |frames| => Location(frames[i].entries))
  }

  /** The type and frame locations a signature takes from a root cause. */
  function Describe(trace: Option<Json>, kind: Option<Json>): Option<(Json, seq<(Json, Json)>)> {
    match FrameList(trace)
    case None => None
    case Some(frames) => Some((OrNull(kind), Locations(SelectFrames(frames))))
  }

  function DescribeException(x: Json): Option<(Json, seq<(Json, Json)>)>
    requires x.Obj?
  {
    Describe(Get(x.entries, "stacktrace"), Get(x.entries, "type"))
  }

  /** The bounded walk to the root cause. */
  method WalkToRootCause(exception: Json) returns (current: Json)
    requires exception.Obj?
    ensures current == Walk(exception, MAX_CAUSE_DEPTH)
    ensures Depth(exception) <= MAX_CAUSE_DEPTH + 1 ==> current == Root(exception)
  {
    WalkReachesRoot(exception, MAX_CAUSE_DEPTH);
    current := exception;
    for i := 0 to MAX_CAUSE_DEPTH
      invariant current.Obj?
      invariant Walk(current, MAX_CAUSE_DEPTH - i) == Walk(exception, MAX_CAUSE_DEPTH)
    {
      var cause := Cause(current);
      if cause.None? {
        break;
      }
      current := cause.value;
    }
  }

  // ---------------------------------------------------------------------
  // The signature of an envelope
  // ---------------------------------------------------------------------

  /** Placeholder substitution in messages is a parameter. */
  function MessageText(j: Option<Json>, collapse: string -> string): string {
    match j
    case Some(Str(s)) => collapse(s)
    case Some(v) => if Truthy(v) then "" else collapse("")
    case None => collapse("")
  }

  /** None when computing it raises, which drops the event. */
  function Sign(env: seq<Entry>, collapse: string -> string): Option<Signature> {
    var platform := OrNull(Get(env, "platform"));
    match Get(env, "exception")
    case Some(Obj(entries)) =>
      (match DescribeException(Walk(Obj(entries), MAX_CAUSE_DEPTH))
       case None => None
       case Some((kind, frames)) => Some(OfException(platform, kind, frames)))
    case _ => Some(OfMessage(platform, OrNull(Get(env, "level")), MessageText(Get(env, "message"), collapse)))
  }

  /** Normalise, symbolicate, sign: the pure pipeline in front of the issue upsert. */
  function GroupKey(env: seq<Entry>, stores: string -> Store, collapse: string -> string): Option<Signature> {
    Sign(SymbolicateEnvelope(NormalizeEnvelope(env), stores), collapse)
  }

  // ---------------------------------------------------------------------
  // Normalisation and the cause chain
  // ---------------------------------------------------------------------

  /** On a chain that fits below either depth, normalisation does not depend on the depth. */
  lemma {:induction false} NormalizeShift(x: Json, depth: nat, other: nat)
    requires x.Obj?
    requires depth + Depth(x) <= MAX_CAUSE_DEPTH + 1 && other + Depth(x) <= MAX_CAUSE_DEPTH + 1
    ensures NormalizeException(x, depth) == NormalizeException(x, other)
    decreases x
  {
    hide Get, Put, Set, Remove, NormalizeTrace;
    if Cause(x).Some? {
      NormalizeShift(Cause(x).value, depth + 1, other + 1);
    }
  }

  /** The root of a normalised chain is the exception at which the depth cap, or the chain, ends. */
  lemma {:induction false} NormalizedRoot(x: Json, depth: nat)
    requires x.Obj? && 1 <= depth <= MAX_CAUSE_DEPTH
    ensures var root := Root(NormalizeException(x, depth));
            var link := Walk(x, MAX_CAUSE_DEPTH - depth);
            && Get(root.entries, "stacktrace") == NormalizeTrace(Get(link.entries, "stacktrace"))
            && Get(root.entries, "type") == Get(link.entries, "type")
    decreases x
  {
    hide Get, Put, Set, Remove, NormalizeTrace;
    var out := NormalizeException(x, depth);
    NormalizedExceptionField(x, depth, "stacktrace");
    NormalizedExceptionField(x, depth, "type");
    NormalizedExceptionField(x, depth, "cause");
    if Cause(x).Some? && depth < MAX_CAUSE_DEPTH {
      var next := NormalizeException(Cause(x).value, depth + 1);
      assert Cause(out) == Some(next);
      NormalizedRoot(Cause(x).value, depth + 1);
    } else {
      assert Cause(out).None?;
    }
  }

  // ---------------------------------------------------------------------
  // Symbolication and the cause chain
  // ---------------------------------------------------------------------

  /** The frame names an asset whose map cannot be loaded without raising. */
  predicate FrameRaises(frame: Json, store: Store) {
    frame.Obj? &&
    match AssetName(Get(frame.entries, "filename"))
    case None => false
    case Some(asset) => store(MapName(asset)).Raises?
  }

  predicate SomeFrameRaises(frames: seq<Json>, store: Store) {
    exists i :: 0 <= i < |frames| && FrameRaises(frames[i], store)
  }

  predicate TraceRaises(trace: Option<Json>, store: Store) {
    match trace
    case Some(Obj(entries)) =>
      (match Get(entries, "frames")
       case Some(Arr(frames)) => SomeFrameRaises(frames, store)
       case _ => false)
    case _ => false
  }

  lemma FrameRaisesIff(frame: Json, store: Store)
    ensures FrameRaises(frame, store) <==> SymbolicateItem(frame, store).None?
  {
    hide Get, AssetName, MapName, SymbolicateFrame;
  }

  /** Symbolicating a trace fails exactly on a trace with such a frame. */
  lemma TraceRaisesIff(trace: Option<Json>, store: Store)
    ensures TraceRaises(trace, store) <==> SymbolicateTrace(trace, store).None?
  {
    hide Get, Set, SymbolicateItem, FrameRaises;
    match trace
    case Some(Obj(entries)) =>
      match Get(entries, "frames") {
        case Some(Arr(frames)) =>
          forall i | 0 <= i < |frames| ensures FrameRaises(frames[i], store) <==> SymbolicateItem(frames[i], store).None? {
            FrameRaisesIff(frames[i], store);
          }
        case _ =>
      }
    case _ =>
  }

  /** Some exception of the chain has a frame whose map cannot be loaded without raising. */
  predicate ChainRaises(x: Json, store: Store)
    requires x.Obj?
    decreases x
  {
    || TraceRaises(Get(x.entries, "stacktrace"), store)
    || (Cause(x).Some? && ChainRaises(Cause(x).value, store))
  }

  lemma SymbolicatedField(x: Json, store: Store, key: string)
    requires x.Obj? && !TraceRaises(Get(x.entries, "stacktrace"), store)
    requires Cause(x).Some? ==> SymbolicateException(Cause(x).value, store).Some?
    ensures SymbolicateException(x, store).Some?
    ensures Get(SymbolicateException(x, store).value.entries, key)
         == if key == "cause" && Cause(x).Some? then SymbolicateException(Cause(x).value, store)
            else if key == "stacktrace" then SymbolicateTrace(Get(x.entries, key), store).value
            else Get(x.entries, key)
  {
    hide Get, Set, Put, SymbolicateTrace, TraceRaises;
    TraceRaisesIff(Get(x.entries, "stacktrace"), store);
    var trace := SymbolicateTrace(Get(x.entries, "stacktrace"), store).value;
    var out := Put(x.entries, "stacktrace", trace);
    GetPut(x.entries, "stacktrace", trace, key);
    SymbolicatedTraceStays(Get(x.entries, "stacktrace"), store);
    if Cause(x).Some? {
      GetSet(out, "cause", SymbolicateException(Cause(x).value, store).value, key);
    }
  }

  lemma SymbolicatedTraceStays(trace: Option<Json>, store: Store)
    ensures SymbolicateTrace(trace, store).Some? ==> (SymbolicateTrace(trace, store).value.Some? <==> trace.Some?)
  {
  }

  /** Symbolication fails exactly on a raising chain, and commutes with taking the root cause. */
  lemma {:induction false} SymbolicatedRoot(x: Json, store: Store)
    requires x.Obj?
    ensures SymbolicateException(x, store).None? <==> ChainRaises(x, store)
    ensures !ChainRaises(x, store) ==> SymbolicateException(Root(x), store).Some?
    ensures !ChainRaises(x, store) ==>
              Root(SymbolicateException(x, store).value) == SymbolicateException(Root(x), store).value
    ensures !ChainRaises(x, store) ==> Depth(SymbolicateException(x, store).value) == Depth(x)
    decreases x
  {
    hide Get, Set, Put, SymbolicateTrace, TraceRaises;
    TraceRaisesIff(Get(x.entries, "stacktrace"), store);
    if Cause(x).Some? {
      SymbolicatedRoot(Cause(x).value, store);
    }
    if !ChainRaises(x, store) {
      SymbolicatedField(x, store, "cause");
      var out := SymbolicateException(x, store).value;
      if Cause(x).Some? {
        assert Cause(out) == SymbolicateException(Cause(x).value, store);
      } else {
        assert Cause(out).None?;
      }
    }
  }

  // ---------------------------------------------------------------------
  // The signature of a chain in closed form
  // ---------------------------------------------------------------------

  /** Whether the worker tries source maps on an envelope, and which. */
  function StoreOf(env: seq<Entry>, stores: string -> Store): Option<Store> {
    match (Get(env, "platform"), Get(env, "release"))
    case (Some(Str(platform)), Some(Str(release))) =>
      if platform == "javascript" && release != "" then Some(stores(release)) else None
    case _ => None
  }

  /** The signature part an exception gives once normalised, with or without source maps. */
  function LinkDescription(x: Json, store: Option<Store>): Option<(Json, seq<(Json, Json)>)>
    requires x.Obj?
  {
    var trace := NormalizeTrace(Get(x.entries, "stacktrace"));
    match store
    case Some(maps) =>
      (match SymbolicateTrace(trace, maps)
       case None => None
       case Some(out) => Describe(out, Get(x.entries, "type")))
    case None => Describe(trace, Get(x.entries, "type"))
  }

  function WithPlatform(platform: Json, d: Option<(Json, seq<(Json, Json)>)>): Option<Signature> {
    match d
    case None => None
    case Some((kind, frames)) => Some(OfException(platform, kind, frames))
  }

  /** The source maps that take effect: none when any load on the normalised chain raises. */
  function EffectiveStore(x: Json, store: Option<Store>): Option<Store>
    requires x.Obj?
  {
    match store
    case Some(maps) => if ChainRaises(NormalizeException(x, 1), maps) then None else store
    case None => None
  }

  lemma {:induction false} RootDoesNotRaise(x: Json, store: Store)
    requires x.Obj? && !ChainRaises(x, store)
    ensures !TraceRaises(Get(Root(x).entries, "stacktrace"), store)
    decreases x
  {
    hide Get, TraceRaises;
    if Cause(x).Some? {
      RootDoesNotRaise(Cause(x).value, store);
    }
  }

  lemma WalkNormalized(x: Json)
    requires x.Obj?
    ensures Walk(NormalizeException(x, 1), MAX_CAUSE_DEPTH) == Root(NormalizeException(x, 1))
  {
    hide NormalizeException, ExceptionFits;
    NormalizedExceptionFits(x, 1);
    WalkReachesRoot(NormalizeException(x, 1), MAX_CAUSE_DEPTH);
  }

  lemma DescribeSymbolicated(x: Json, store: Store)
    requires x.Obj? && !ChainRaises(NormalizeException(x, 1), store)
    ensures var y := SymbolicateException(NormalizeException(x, 1), store);
            && y.Some?
            && DescribeException(Walk(y.value, MAX_CAUSE_DEPTH))
               == LinkDescription(Walk(x, MAX_CAUSE_DEPTH - 1), Some(store))
  {
    hide Get, NormalizeException, NormalizeTrace, SymbolicateException, SymbolicateTrace, TraceRaises, ChainRaises, Describe, Walk, Depth, Root, ExceptionFits;
    var n := NormalizeException(x, 1);
    NormalizedExceptionFits(x, 1);
    SymbolicatedRoot(n, store);
    var y := SymbolicateException(n, store).value;
    WalkReachesRoot(y, MAX_CAUSE_DEPTH);
    NormalizedRoot(x, 1);
    RootDoesNotRaise(n, store);
    TraceRaisesIff(Get(Root(n).entries, "stacktrace"), store);
    SymbolicatedField(Root(n), store, "stacktrace");
    SymbolicatedField(Root(n), store, "type");
  }

  lemma DescribePlain(x: Json)
    requires x.Obj?
    ensures DescribeException(Walk(NormalizeException(x, 1), MAX_CAUSE_DEPTH))
         == LinkDescription(Walk(x, MAX_CAUSE_DEPTH - 1), None)
  {
    hide Get, NormalizeException, NormalizeTrace, Describe, Walk, Root;
    WalkNormalized(x);
    NormalizedRoot(x, 1);
  }

  lemma NormalizedHeader(env: seq<Entry>, stores: string -> Store)
    ensures StoreOf(NormalizeEnvelope(env), stores) == StoreOf(env, stores)
    ensures Get(NormalizeEnvelope(env), "platform") == Get(env, "platform")
  {
    hide Get, NormalizeEnvelope;
    NormalizedEnvelopeField(env, "platform");
    NormalizedEnvelopeField(env, "release");
  }

  lemma SymbolicatedHeader(env: seq<Entry>, x: Json, stores: string -> Store)
    requires x.Obj? && Get(env, "exception") == Some(x)
    ensures var out := SymbolicateEnvelope(env, stores);
            && (forall key :: key != "exception" ==> Get(out, key) == Get(env, key))
            && Get(out, "exception") ==
                 match StoreOf(env, stores)
                 case None => Some(x)
                 case Some(maps) =>
                   if SymbolicateException(x, maps).Some? then SymbolicateException(x, maps) else Some(x)
  {
    hide Get, Set, SymbolicateException;
    if StoreOf(env, stores).Some? && SymbolicateException(x, StoreOf(env, stores).value).Some? {
      var y := SymbolicateException(x, StoreOf(env, stores).value).value;
      forall key ensures Get(Set(env, "exception", y), key) == if key == "exception" then Some(y) else Get(env, key) {
        GetSet(env, "exception", y, key);
      }
    }
  }

  /**
   The signature of any exception event, however deep its chain: it is that of
   the fifth exception, or the last, seen through the source maps unless one of
   their loads raises.
   */
  lemma GroupKeyOfChain(env: seq<Entry>, x: Json, stores: string -> Store, collapse: string -> string)
    requires x.Obj? && Get(env, "exception") == Some(x)
    ensures GroupKey(env, stores, collapse)
         == WithPlatform(OrNull(Get(env, "platform")),
                         LinkDescription(Walk(x, MAX_CAUSE_DEPTH - 1), EffectiveStore(x, StoreOf(env, stores))))
  {
    hide Get, NormalizeEnvelope, SymbolicateEnvelope, NormalizeException, SymbolicateException,
      DescribeException, LinkDescription, Walk, ChainRaises, StoreOf;
    var normalized := NormalizeEnvelope(env);
    var n := NormalizeException(x, 1);
    NormalizedEnvelopeField(env, "exception");
    assert Get(normalized, "exception") == Some(n);
    NormalizedHeader(env, stores);
    SymbolicatedHeader(normalized, n, stores);
    DescribePlain(x);
    match StoreOf(env, stores)
    case None =>
    case Some(maps) =>
      SymbolicatedRoot(n, maps);
      if !ChainRaises(n, maps) {
        DescribeSymbolicated(x, maps);
      }
  }

  lemma NoExceptionKept(env: seq<Entry>, stores: string -> Store)
    requires Get(env, "exception").Some? ==> !Get(env, "exception").value.Obj?
    ensures SymbolicateEnvelope(env, stores) == env
  {
    hide Get, SymbolicateException;
  }

  /**
   An event without an exception groups by platform, level and capped message
   with its placeholders substituted; source maps do not matter to it.
   */
  lemma GroupKeyOfMessage(env: seq<Entry>, stores: string -> Store, collapse: string -> string)
    requires Get(env, "exception").Some? ==> !Get(env, "exception").value.Obj?
    ensures GroupKey(env, stores, collapse)
         == Some(OfMessage(OrNull(Get(env, "platform")), OrNull(Get(env, "level")),
                           MessageText(CapText(Get(env, "message"), MESSAGE_MAX), collapse)))
  {
    hide Get, NormalizeEnvelope, SymbolicateEnvelope, MessageText, CapText, NormalizeException, DescribeException;
    NormalizedEnvelopeField(env, "exception");
    NoExceptionKept(NormalizeEnvelope(env), stores);
    NormalizedEnvelopeField(env, "platform");
    NormalizedEnvelopeField(env, "level");
    NormalizedEnvelopeField(env, "message");
  }

  // ---------------------------------------------------------------------
  // Wrapping
  // ---------------------------------------------------------------------

  /** The same exception raised from inside `outer`. */
  function WrapException(outer: seq<Entry>, x: Json): (w: Json)
    ensures w.Obj?
  {
    Obj(Set(outer, "cause", x))
  }

  function WrapEnvelope(env: seq<Entry>, outer: seq<Entry>, x: Json): seq<Entry> {
    Set(env, "exception", WrapException(outer, x))
  }

  lemma WrappedChain(outer: seq<Entry>, x: Json)
    requires x.Obj?
    ensures Cause(WrapException(outer, x)) == Some(x)
    ensures Depth(WrapException(outer, x)) == 1 + Depth(x)
    ensures forall steps: nat :: Walk(WrapException(outer, x), steps + 1) == Walk(x, steps)
    ensures Get(WrapException(outer, x).entries, "stacktrace") == Get(outer, "stacktrace")
  {
    hide Get, Set;
    GetSet(outer, "cause", x, "cause");
    GetSet(outer, "cause", x, "stacktrace");
  }

  /** Loading a map for a normalised frame of the wrapping exception raises. */
  predicate OuterRaises(outer: seq<Entry>, store: Store) {
    TraceRaises(NormalizeTrace(Get(outer, "stacktrace")), store)
  }

  /** The frame raises once its file name is capped. */
  predicate CappedFrameRaises(frame: Json, store: Store) {
    frame.Obj? &&
    match AssetName(CapText(Get(frame.entries, "filename"), FILENAME_MAX))
    case None => false
    case Some(asset) => store(MapName(asset)).Raises?
  }

  predicate SomeLastFrameRaises(frames: seq<Json>, store: Store) {
    exists i :: |frames| - MAX_FRAMES <= i < |frames| && 0 <= i && CappedFrameRaises(frames[i], store)
  }

  /** What that means for the wrapping exception as it was sent: one of its last 128 frames. */
  lemma OuterRaisesIff(outer: seq<Entry>, store: Store)
    ensures OuterRaises(outer, store) <==>
      match Get(outer, "stacktrace")
      case Some(Obj(entries)) =>
        (match Get(entries, "frames") case Some(Arr(frames)) => SomeLastFrameRaises(frames, store) case _ => false)
      case _ => false
  {
    hide Get, Set, NormalizeFrames, SomeFrameRaises, SomeLastFrameRaises;
    match Get(outer, "stacktrace")
    case Some(Obj(entries)) =>
      match Get(entries, "frames") {
        case Some(Arr(frames)) =>
          GetSet(entries, "frames", Arr(NormalizeFrames(frames)), "frames");
          LastFrameRaises(frames, store);
        case _ =>
      }
    case _ =>
  }

  lemma LastFrameRaises(frames: seq<Json>, store: Store)
    ensures SomeFrameRaises(NormalizeFrames(frames), store) <==> SomeLastFrameRaises(frames, store)
  {
    hide NormalizeFrame, FrameRaises, CappedFrameRaises;
    var out := NormalizeFrames(frames);
    var cut := |frames| - |out|;
    forall i | 0 <= i < |out|
      ensures FrameRaises(out[i], store) <==> CappedFrameRaises(frames[cut + i], store)
    {
      NormalizedFrameAt(frames, cut + i);
      NormalizedFrameRaises(frames[cut + i], store);
    }
    if SomeLastFrameRaises(frames, store) {
      var i :| |frames| - MAX_FRAMES <= i < |frames| && 0 <= i && CappedFrameRaises(frames[i], store);
      assert FrameRaises(out[i - cut], store) <==> CappedFrameRaises(frames[cut + (i - cut)], store);
    }
    if SomeFrameRaises(out, store) {
      var i :| 0 <= i < |out| && FrameRaises(out[i], store);
      assert CappedFrameRaises(frames[cut + i], store);
    }
  }

  lemma NormalizedFrameRaises(frame: Json, store: Store)
    ensures FrameRaises(NormalizeFrame(frame), store) <==> CappedFrameRaises(frame, store)
  {
    hide Get, NormalizeFields, AssetName, MapName, CapText;
    if frame.Obj? { NormalizedField(frame.entries, "filename"); }
  }

  lemma WrappedRaises(outer: seq<Entry>, x: Json, store: Store)
    requires x.Obj? && Depth(x) < MAX_CAUSE_DEPTH
    ensures ChainRaises(NormalizeException(WrapException(outer, x), 1), store)
        <==> OuterRaises(outer, store) || ChainRaises(NormalizeException(x, 1), store)
  {
    hide Get, Set, NormalizeTrace, NormalizeException, TraceRaises, WrapException, Depth;
    var w := WrapException(outer, x);
    WrappedChain(outer, x);
    NormalizedExceptionField(w, 1, "stacktrace");
    NormalizedExceptionField(w, 1, "cause");
    NormalizeShift(x, 2, 1);
    var n := NormalizeException(w, 1);
    assert Cause(n) == Some(NormalizeException(x, 1));
  }

  /**
   Wrapping an exception whose chain is at most four deep keeps its signature,
   unless a map load for the new outer frames raises: then source maps are
   skipped for the whole event and it is signed on its minified root.
   */
  lemma WrappingKeepsGroup(
      env: seq<Entry>, x: Json, outer: seq<Entry>, stores: string -> Store, collapse: string -> string)
    requires x.Obj? && Get(env, "exception") == Some(x) && Depth(x) < MAX_CAUSE_DEPTH
    ensures var store := StoreOf(env, stores);
            var wrapped := GroupKey(WrapEnvelope(env, outer, x), stores, collapse);
            if store.Some? && OuterRaises(outer, store.value) then
              wrapped == WithPlatform(OrNull(Get(env, "platform")), LinkDescription(Root(x), None))
            else wrapped == GroupKey(env, stores, collapse)
  {
    hide Get, Set, GroupKey, WrapException, LinkDescription, NormalizeException, ChainRaises, OuterRaises, Depth, Walk, Root;
    var w := WrapException(outer, x);
    var env' := WrapEnvelope(env, outer, x);
    WrappedHeader(env, outer, x, stores);
    WrappedChain(outer, x);
    WalkReachesRoot(x, MAX_CAUSE_DEPTH - 1);
    WalkReachesRoot(x, MAX_CAUSE_DEPTH - 2);
    assert Walk(w, MAX_CAUSE_DEPTH - 2 + 1) == Walk(x, MAX_CAUSE_DEPTH - 2);
    GroupKeyOfChain(env, x, stores, collapse);
    GroupKeyOfChain(env', w, stores, collapse);
    if StoreOf(env, stores).Some? {
      WrappedRaises(outer, x, StoreOf(env, stores).value);
    }
  }

  lemma WrappedHeader(env: seq<Entry>, outer: seq<Entry>, x: Json, stores: string -> Store)
    ensures var env' := WrapEnvelope(env, outer, x);
            && StoreOf(env', stores) == StoreOf(env, stores)
            && Get(env', "platform") == Get(env, "platform")
            && Get(env', "exception") == Some(WrapException(outer, x))
  {
    hide Get, Set, WrapException;
    var w := WrapException(outer, x);
    GetSet(env, "exception", w, "platform");
    GetSet(env, "exception", w, "release");
    GetSet(env, "exception", w, "exception");
  }

  /**
   A chain of five or more loses its end to the depth cap: wrapping moves the
   signature from the fifth exception to the fourth, each seen through the
   source maps that take effect on its own chain.
   */
  lemma WrappingDeepChain(
      env: seq<Entry>, x: Json, outer: seq<Entry>, stores: string -> Store, collapse: string -> string)
    requires x.Obj? && Get(env, "exception") == Some(x)
    ensures var platform, store := OrNull(Get(env, "platform")), StoreOf(env, stores);
            && GroupKey(env, stores, collapse)
               == WithPlatform(platform, LinkDescription(Walk(x, 4), EffectiveStore(x, store)))
            && GroupKey(WrapEnvelope(env, outer, x), stores, collapse)
               == WithPlatform(platform, LinkDescription(Walk(x, 3), EffectiveStore(WrapException(outer, x), store)))
  {
    hide Get, Set, GroupKey, WrapException, LinkDescription, NormalizeException, Walk, WrapEnvelope, StoreOf, EffectiveStore;
    WrappedHeader(env, outer, x, stores);
    WrappedChain(outer, x);
    GroupKeyOfChain(env, x, stores, collapse);
    GroupKeyOfChain(WrapEnvelope(env, outer, x), WrapException(outer, x), stores, collapse);
    assert Walk(WrapException(outer, x), 3 + 1) == Walk(x, 3);
  }

  /** An exception of the given type with nothing but a cause. */
  function Plain(kind: string, cause: seq<Entry>): Json {
    Obj([Entry("type", Str(kind))] + cause)
  }

  function CausedBy(x: Json): seq<Entry> {
    [Entry("cause", x)]
  }

  /** Five exceptions deep, the bound is reached: this event changes group when wrapped. */
  lemma WrappingFifthMovesGroup(outer: seq<Entry>, stores: string -> Store, collapse: string -> string)
    ensures exists env: seq<Entry>, x: Json ::
      && x.Obj? && Get(env, "exception") == Some(x) && Depth(x) == MAX_CAUSE_DEPTH
      && GroupKey(WrapEnvelope(env, outer, x), stores, collapse) != GroupKey(env, stores, collapse)
  {
    hide GroupKey, WrapEnvelope;
    var e := Plain("E", []);
    var d := Plain("D", CausedBy(e));
    var c := Plain("C", CausedBy(d));
    var b := Plain("B", CausedBy(c));
    var a := Plain("A", CausedBy(b));
    var env := [Entry("exception", a)];
    PlainFields("E", []);
    PlainFields("D", CausedBy(e));
    PlainFields("C", CausedBy(d));
    PlainFields("B", CausedBy(c));
    PlainFields("A", CausedBy(b));
    assert Cause(a) == Some(b) && Cause(b) == Some(c) && Cause(c) == Some(d) && Cause(d) == Some(e);
    assert Walk(a, 3) == Walk(b, 2) == Walk(c, 1) == d;
    assert Walk(a, 4) == Walk(b, 3) == Walk(c, 2) == Walk(d, 1) == e;
    assert Depth(e) == 1 && Depth(d) == 2 && Depth(c) == 3 && Depth(b) == 4 && Depth(a) == 5;
    assert env[1..] == [] && Get(env, "platform").None?;
    WrappingDeepChain(env, a, outer, stores, collapse);
  }

  lemma PlainFields(kind: string, cause: seq<Entry>)
    requires cause == [] || (|cause| == 1 && cause[0].key == "cause")
    ensures Get(Plain(kind, cause).entries, "type") == Some(Str(kind))
    ensures Get(Plain(kind, cause).entries, "stacktrace").None?
    ensures Get(Plain(kind, cause).entries, "cause") == if cause == [] then None else Some(cause[0].value)
  {
    var entries := Plain(kind, cause).entries;
    assert entries[1..] == cause;
    if cause != [] {
      assert cause[1..] == [];
      assert Get(cause, "stacktrace") == None;
    }
  }

  /** A one-frame exception. */
  function Framed(filename: string): seq<Entry> {
    [Entry("stacktrace", Obj([Entry("frames", Arr([FrameAt(filename)]))]))]
  }

  function FrameAt(filename: string): Json {
    Obj([Entry("filename", Str(filename)), Entry("lineno", Int(1)), Entry("colno", Int(1))])
  }

  // ---------------------------------------------------------------------
  // A load failure on the outer exception moves the group
  // ---------------------------------------------------------------------

  /** Two uploads: a good map for `a`, one whose `sources` is a number for `b`, nothing else. */
  function UploadedMaps(name: string): Loaded {
    if name == "a.map" then Load(OneSourceDocument("src.js"))
    else if name == "b.map" then Load(Document([], [Entry("sources", Int(1))]))
    else Absent
  }

  function Uploads(release: string): Store {
    UploadedMaps
  }

  /** A JavaScript event with one frame, at the first position of file `a`. */
  function MinifiedEvent(): seq<Entry> {
    [Entry("platform", Str("javascript")), Entry("release", Str("1")), Entry("exception", Obj(Framed("a")))]
  }

  lemma MinifiedFields(stores: string -> Store)
    ensures Get(MinifiedEvent(), "exception") == Some(Obj(Framed("a")))
    ensures StoreOf(MinifiedEvent(), stores) == Some(stores("1"))
    ensures Get(MinifiedEvent(), "message").None? && Get(MinifiedEvent(), "tags").None?
    ensures Get(MinifiedEvent(), "breadcrumbs").None?
  {
    hide Get;
    var env := MinifiedEvent();
    GetAt(env, 0);
    GetAt(env, 1);
    GetAt(env, 2);
    GetIsEntry(env, "message");
    GetIsEntry(env, "tags");
    GetIsEntry(env, "breadcrumbs");
  }

  /** A one-letter file name is its own asset name. */
  lemma LetterAssetName(letter: char)
    requires 'a' <= letter <= 'z'
    ensures AssetName(Some(Str([letter]))) == Some([letter]) && MapName([letter]) == [letter] + ".map"
  {
    hide Strings.Split;
    var name := [letter];
    Strings.SplitFree(name, '?');
    Strings.SplitFree(name, '#');
    Strings.SplitFree(name, '/');
    assert forall i :: 0 <= i <= 1 ==> !StartsAt(name, i, "..");
  }

  lemma FrameFields(filename: string)
    ensures var f := FrameAt(filename).entries;
            && Get(f, "filename") == Some(Str(filename)) && Get(f, "lineno") == Some(Int(1))
            && Get(f, "colno") == Some(Int(1)) && Get(f, "function").None? && Get(f, "context_line").None?
            && Get(f, "pre_context").None? && Get(f, "post_context").None? && Get(f, "in_app").None?
    ensures |filename| <= FILENAME_MAX ==> FieldsFit(FrameAt(filename).entries)
  {
    hide Get;
    var f := FrameAt(filename).entries;
    GetAt(f, 0);
    GetAt(f, 1);
    GetAt(f, 2);
    GetIsEntry(f, "function");
    GetIsEntry(f, "context_line");
    GetIsEntry(f, "pre_context");
    GetIsEntry(f, "post_context");
    GetIsEntry(f, "in_app");
  }

  /** The one-frame trace is within every cap, and is symbolicated frame by frame. */
  lemma FramedTrace(filename: string, store: Store)
    requires |filename| <= FILENAME_MAX
    ensures var trace := Get(Framed(filename), "stacktrace");
            && NormalizeTrace(trace) == trace
            && FrameList(trace) == Some([FrameAt(filename)])
            && (SymbolicateItem(FrameAt(filename), store).None? ==> TraceRaises(trace, store))
            && (SymbolicateItem(FrameAt(filename), store).Some? ==>
                  && !TraceRaises(trace, store)
                  && FrameList(SymbolicateTrace(trace, store).value)
                     == Some([SymbolicateItem(FrameAt(filename), store).value]))
  {
    hide SymbolicateItem, FieldsFit, NormalizeFields, Set, Get, TraceRaises;
    var frames := [FrameAt(filename)];
    var inner := [Entry("frames", Arr(frames))];
    var trace := Get(Framed(filename), "stacktrace");
    SingleEntry(Entry("stacktrace", Obj(inner)));
    SingleEntry(Entry("frames", Arr(frames)));
    FrameFields(filename);
    NormalizedTraceFits(trace);
    TraceRaisesIff(trace, store);
    assert frames[1..] == [];
    if SymbolicateItem(frames[0], store).Some? {
      var out := SymbolicateItems(frames, store).value;
      assert out == [SymbolicateItem(frames[0], store).value];
      GetSet(inner, "frames", Arr([SymbolicateItem(frames[0], store).value]), "frames");
    }
  }

  /** The single signed frame of a one-frame exception. */
  lemma FramedDescription(filename: string, store: Store)
    requires |filename| <= FILENAME_MAX
    ensures var x := Obj(Framed(filename));
            && LinkDescription(x, None) == Some((Null, [(Str(filename), Null)]))
            && (SymbolicateItem(FrameAt(filename), store).Some? && SymbolicateItem(FrameAt(filename), store).value.Obj? ==>
                  LinkDescription(x, Some(store)) == Some((Null,
                    [Location(SymbolicateItem(FrameAt(filename), store).value.entries)])))
  {
    hide SymbolicateItem, Get, SymbolicateTrace, NormalizeTrace, TraceRaises;
    FramedTrace(filename, store);
    TraceRaisesIff(Get(Framed(filename), "stacktrace"), store);
    SingleEntry(Framed(filename)[0]);
    OneFrame(FrameAt(filename));
    FrameFields(filename);
    if SymbolicateItem(FrameAt(filename), store).Some? && SymbolicateItem(FrameAt(filename), store).value.Obj? {
      OneFrame(SymbolicateItem(FrameAt(filename), store).value);
    }
  }

  lemma OneFrame(frame: Json)
    requires frame.Obj?
    ensures SelectFrames([frame]) == [frame]
    ensures Locations([frame]) == [Location(frame.entries)]
  {
    assert [frame][1..] == [];
    assert InAppFrames([]) == [] && ObjectFrames([]) == [];
  }

  /** The frame of file `b` raises. */
  lemma FrameOfBRaises()
    ensures SymbolicateItem(FrameAt("b"), UploadedMaps).None?
  {
    hide Get, AssetName, MapName, SymbolicateFrame, Load;
    FrameFields("b");
    LetterAssetName('b');
    assert "b" == ['b'] && "b.map" == ['b'] + ".map" && "a.map"[0] != "b.map"[0];
    NumericSourcesRaise(1);
  }

  /** The frame of file `a` resolves to `src.js`. */
  lemma FrameOfAResolves()
    ensures var item := SymbolicateItem(FrameAt("a"), UploadedMaps);
            item.Some? && item.value.Obj? && Location(item.value.entries).0 == Str("src.js")
  {
    hide Get, AssetName, MapName, SymbolicateFrame, Load, OriginalName, Lookup.SourceContext, Lookup.LookupAt, OneSourceDocument;
    FrameFields("a");
    LetterAssetName('a');
    assert "a" == ['a'] && "a.map" == ['a'] + ".map";
    var sm := OneSourceMap("src.js");
    var f := FrameAt("a").entries;
    assert Resolve(f, sm) == Some(Lookup.Position(0, 0, 0, None));
    FrameRewritten(f, sm, "filename");
  }

  /** The event of file `a` is signed on `src.js`, or on the minified name once wrapped. */
  lemma MinifiedSignatures(collapse: string -> string)
    ensures var x, outer := Obj(Framed("a")), Framed("b");
            && GroupKey(MinifiedEvent(), Uploads, collapse)
               == WithPlatform(OrNull(Get(MinifiedEvent(), "platform")), LinkDescription(x, Some(UploadedMaps)))
            && GroupKey(WrapEnvelope(MinifiedEvent(), outer, x), Uploads, collapse)
               == WithPlatform(OrNull(Get(MinifiedEvent(), "platform")), LinkDescription(x, None))
            && Depth(x) == 1
  {
    hide GroupKey, WrapEnvelope, LinkDescription, SymbolicateItem, NormalizeException, NormalizeTrace, SymbolicateTrace,
      TraceRaises, Get, MinifiedEvent, UploadedMaps;
    var x, outer, env := Obj(Framed("a")), Framed("b"), MinifiedEvent();
    MinifiedFields(Uploads);
    SingleEntry(x.entries[0]);
    FrameOfAResolves();
    FrameOfBRaises();
    FramedTrace("b", UploadedMaps);
    FramedTrace("a", UploadedMaps);
    WrappingKeepsGroup(env, x, outer, Uploads, collapse);
    GroupKeyOfChain(env, x, Uploads, collapse);
    NormalizedExceptionField(x, 1, "stacktrace");
    NormalizedExceptionField(x, 1, "cause");
    assert Cause(NormalizeException(x, 1)).None?;
  }

  /**
   Even for a chain of one, wrapping can change the group: when an upload for
   the outer exception's frames raises out of the loader, the event is signed
   on its minified frame instead of the original one.
   */
  lemma LoadFailureMovesGroup(collapse: string -> string)
    ensures Get(MinifiedEvent(), "exception") == Some(Obj(Framed("a"))) && Depth(Obj(Framed("a"))) == 1
    ensures GroupKey(WrapEnvelope(MinifiedEvent(), Framed("b"), Obj(Framed("a"))), Uploads, collapse)
         != GroupKey(MinifiedEvent(), Uploads, collapse)
  {
    hide GroupKey, WrapEnvelope, LinkDescription, SymbolicateItem, Get, MinifiedEvent, UploadedMaps;
    MinifiedFields(Uploads);
    MinifiedSignatures(collapse);
    FrameOfAResolves();
    FramedDescription("a", UploadedMaps);
  }
}
