/** Which events share an issue: what the group key separates and what it joins. */
module GroupKeys {
  import opened Wrappers
  import opened Json
  import opened Exceptions
  import opened Normalize
  import opened FrameSelection
  import opened Symbolicate
  import opened Grouping

  /** The same value under a key, a missing one counting as `null`. */
  predicate SameValue(a: Option<Json>, b: Option<Json>) {
    || a == b
    || ((a.None? || a.value.Null?) && (b.None? || b.value.Null?))
  }

  // ---------------------------------------------------------------------
  // Exceptions
  // ---------------------------------------------------------------------

  /** The frames an exception lists: none without a stack trace, or with text or an object in their place. */
  ghost predicate ListsFrames(x: Json, frames: seq<Json>)
    requires x.Obj?
  {
    match Get(x.entries, "stacktrace")
    case Some(Obj(trace)) => FramesUnder(Get(trace, "frames"), frames)
    case _ => frames == []
  }

  ghost predicate FramesUnder(field: Option<Json>, frames: seq<Json>) {
    match field
    case Some(Arr(items)) => frames == items
    case None => frames == []
    case Some(Str(_)) => frames == []
    case Some(Obj(_)) => frames == []
    case _ => false
  }

  /** The frames that are signed: normalised, seen through the maps in effect, and selected. */
  function SignedFrames(frames: seq<Json>, store: Option<Store>): seq<Json> {
    var normalized := NormalizeFrames(frames);
    match store
    case None => SelectFrames(normalized)
    case Some(maps) =>
      match SymbolicateItems(normalized, maps)
      case None => []
      case Some(items) => SelectFrames(items)
  }

  /** Frame by frame the same file name and the same function. */
  predicate SamePlaces(a: seq<Json>, b: seq<Json>)
    requires forall i :: 0 <= i < |a| ==> a[i].Obj?
    requires forall i :: 0 <= i < |b| ==> b[i].Obj?
  {
    && |a| == |b|
    && forall i :: 0 <= i < |a| ==>
         && SameValue(Get(a[i].entries, "filename"), Get(b[i].entries, "filename"))
         && SameValue(Get(a[i].entries, "function"), Get(b[i].entries, "function"))
  }

  lemma SignedObjects(frames: seq<Json>, store: Option<Store>)
    ensures forall i :: 0 <= i < |SignedFrames(frames, store)| ==> SignedFrames(frames, store)[i].Obj?
  {
    hide SelectFrames, NormalizeFrames, SymbolicateItems;
  }

  lemma SameOrNull(a: Option<Json>, b: Option<Json>)
    ensures OrNull(a) == OrNull(b) <==> SameValue(a, b)
  {
  }

  lemma SameLocations(a: seq<Json>, b: seq<Json>)
    requires forall i :: 0 <= i < |a| ==> a[i].Obj?
    requires forall i :: 0 <= i < |b| ==> b[i].Obj?
    ensures Locations(a) == Locations(b) <==> SamePlaces(a, b)
  {
    hide Get, OrNull, SameValue;
    forall i | 0 <= i < |a| && i < |b|
      ensures Locations(a)[i] == Locations(b)[i] <==>
                && SameValue(Get(a[i].entries, "filename"), Get(b[i].entries, "filename"))
                && SameValue(Get(a[i].entries, "function"), Get(b[i].entries, "function"))
    {
      SameOrNull(Get(a[i].entries, "filename"), Get(b[i].entries, "filename"));
      SameOrNull(Get(a[i].entries, "function"), Get(b[i].entries, "function"));
    }
    if SamePlaces(a, b) {
      assert Locations(a) == Locations(b);
    }
  }

  /** The trace of an exception that lists frames, after normalisation. */
  lemma NormalizedFrames(x: Json, frames: seq<Json>)
    requires x.Obj? && ListsFrames(x, frames)
    ensures FrameList(NormalizeTrace(Get(x.entries, "stacktrace"))) == Some(NormalizeFrames(frames))
  {
    hide Get, Set, NormalizeFrames;
    NoFrames();
    match Get(x.entries, "stacktrace")
    case Some(Obj(trace)) =>
      if Get(trace, "frames").Some? && Get(trace, "frames").value.Arr? {
        GetSet(trace, "frames", Arr(NormalizeFrames(frames)), "frames");
      }
    case _ =>
  }

  lemma NoFrames()
    ensures NormalizeFrames([]) == []
  {
  }

  lemma NothingSymbolicated(store: Store)
    ensures SymbolicateItems([], store) == Some([])
  {
  }

  lemma SymbolicatedFrames(trace: Option<Json>, frames: seq<Json>, store: Store)
    requires FrameList(trace) == Some(frames) && !TraceRaises(trace, store)
    ensures SymbolicateTrace(trace, store).Some? && SymbolicateItems(frames, store).Some?
    ensures FrameList(SymbolicateTrace(trace, store).value) == SymbolicateItems(frames, store)
  {
    hide Get, Set, SymbolicateItems, TraceRaises;
    TraceRaisesIff(trace, store);
    NothingSymbolicated(store);
    match trace
    case Some(Obj(entries)) =>
      if Get(entries, "frames").Some? && Get(entries, "frames").value.Arr? {
        GetSet(entries, "frames", Arr(SymbolicateItems(frames, store).value), "frames");
      }
    case _ =>
  }

  /** The exception that is signed and what is signed of it. */
  lemma LinkSigned(link: Json, frames: seq<Json>, store: Option<Store>)
    requires link.Obj? && ListsFrames(link, frames)
    requires store.Some? ==> !TraceRaises(NormalizeTrace(Get(link.entries, "stacktrace")), store.value)
    ensures forall i :: 0 <= i < |SignedFrames(frames, store)| ==> SignedFrames(frames, store)[i].Obj?
    ensures LinkDescription(link, store)
         == Some((OrNull(Get(link.entries, "type")), Locations(SignedFrames(frames, store))))
  {
    hide Get, OrNull, SelectFrames, NormalizeFrames, NormalizeTrace, SymbolicateTrace, SymbolicateItems, TraceRaises, Locations, ListsFrames;
    SignedObjects(frames, store);
    NormalizedFrames(link, frames);
    if store.Some? {
      SymbolicatedFrames(NormalizeTrace(Get(link.entries, "stacktrace")), NormalizeFrames(frames), store.value);
    }
  }

  /** An exception event, the link of its chain that is signed, and the frames that link lists. */
  ghost predicate SignsOn(env: seq<Entry>, stores: string -> Store, link: Json, frames: seq<Json>) {
    && Get(env, "exception").Some? && Get(env, "exception").value.Obj?
    && link == Walk(Get(env, "exception").value, 4)
    && ListsFrames(link, frames)
  }

  function MapsInEffect(env: seq<Entry>, stores: string -> Store): Option<Store> {
    match Get(env, "exception")
    case Some(Obj(entries)) => EffectiveStore(Obj(entries), StoreOf(env, stores))
    case _ => None
  }

  /** The maps in effect do not raise on the signed link. */
  lemma {:induction false} ChainLinkDoesNotRaise(x: Json, depth: nat, store: Store)
    requires x.Obj? && 1 <= depth <= MAX_CAUSE_DEPTH && !ChainRaises(NormalizeException(x, depth), store)
    ensures !TraceRaises(NormalizeTrace(Get(Walk(x, MAX_CAUSE_DEPTH - depth).entries, "stacktrace")), store)
    decreases x
  {
    hide Get, NormalizeTrace, TraceRaises, NormalizeException;
    NormalizedExceptionField(x, depth, "stacktrace");
    NormalizedExceptionField(x, depth, "cause");
    if Cause(x).Some? && depth < MAX_CAUSE_DEPTH {
      assert Cause(NormalizeException(x, depth)) == Some(NormalizeException(Cause(x).value, depth + 1));
      ChainLinkDoesNotRaise(Cause(x).value, depth + 1, store);
    }
  }

  lemma ExceptionKey(
      env: seq<Entry>, stores: string -> Store, collapse: string -> string, link: Json, frames: seq<Json>)
    requires SignsOn(env, stores, link, frames)
    ensures forall i :: 0 <= i < |SignedFrames(frames, MapsInEffect(env, stores))| ==>
              SignedFrames(frames, MapsInEffect(env, stores))[i].Obj?
    ensures link.Obj?
    ensures GroupKey(env, stores, collapse)
         == Some(OfException(OrNull(Get(env, "platform")), OrNull(Get(link.entries, "type")),
                             Locations(SignedFrames(frames, MapsInEffect(env, stores)))))
  {
    hide Get, OrNull, GroupKey, LinkDescription, NormalizeException, NormalizeTrace, ChainRaises, TraceRaises, StoreOf,
      ListsFrames, SignedFrames, Locations, Walk;
    var x := Get(env, "exception").value;
    GroupKeyOfChain(env, x, stores, collapse);
    var store := EffectiveStore(x, StoreOf(env, stores));
    if store.Some? {
      ChainLinkDoesNotRaise(x, 1, store.value);
    }
    LinkSigned(link, frames, store);
  }

  /**
   Two exception events share a key exactly when they agree in platform, in the
   type of the exception that is signed, the fifth or the last of the chain,
   and frame by frame in file name and function of the frames that are signed.
   */
  lemma ExceptionKeysEqualIff(
      env: seq<Entry>, stores: string -> Store, link: Json, frames: seq<Json>,
      env': seq<Entry>, stores': string -> Store, link': Json, frames': seq<Json>, collapse: string -> string)
    requires SignsOn(env, stores, link, frames) && SignsOn(env', stores', link', frames')
    ensures link.Obj? && link'.Obj?
    ensures forall i :: 0 <= i < |SignedFrames(frames, MapsInEffect(env, stores))| ==>
              SignedFrames(frames, MapsInEffect(env, stores))[i].Obj?
    ensures forall i :: 0 <= i < |SignedFrames(frames', MapsInEffect(env', stores'))| ==>
              SignedFrames(frames', MapsInEffect(env', stores'))[i].Obj?
    ensures GroupKey(env, stores, collapse).Some? && GroupKey(env', stores', collapse).Some?
    ensures GroupKey(env, stores, collapse) == GroupKey(env', stores', collapse) <==>
              && SameValue(Get(env, "platform"), Get(env', "platform"))
              && SameValue(Get(link.entries, "type"), Get(link'.entries, "type"))
              && SamePlaces(SignedFrames(frames, MapsInEffect(env, stores)),
                            SignedFrames(frames', MapsInEffect(env', stores')))
  {
    hide Get, OrNull, SameValue, GroupKey, SignedFrames, MapsInEffect, SamePlaces, Locations, SignsOn;
    ExceptionKey(env, stores, collapse, link, frames);
    ExceptionKey(env', stores', collapse, link', frames');
    SameOrNull(Get(env, "platform"), Get(env', "platform"));
    SameOrNull(Get(link.entries, "type"), Get(link'.entries, "type"));
    SameLocations(SignedFrames(frames, MapsInEffect(env, stores)), SignedFrames(frames', MapsInEffect(env', stores')));
  }

  // ---------------------------------------------------------------------
  // Messages
  // ---------------------------------------------------------------------

  predicate IsMessageEvent(env: seq<Entry>) {
    Get(env, "exception").Some? ==> !Get(env, "exception").value.Obj?
  }

  /**
   The text that is signed: the message, cut to 8192 characters, with its
   placeholders substituted; the empty text in place of a missing or falsy one;
   nothing of any other value.
   */
  ghost predicate SignsText(env: seq<Entry>, collapse: string -> string, text: string) {
    match Get(env, "message")
    case Some(Str(s)) => text == collapse(if |s| <= 8192 then s else s[..8189] + "...")
    case Some(v) => text == if Truthy(v) then "" else collapse("")
    case None => text == collapse("")
  }

  lemma MessageKey(env: seq<Entry>, stores: string -> Store, collapse: string -> string, text: string)
    requires IsMessageEvent(env) && SignsText(env, collapse, text)
    ensures GroupKey(env, stores, collapse)
         == Some(OfMessage(OrNull(Get(env, "platform")), OrNull(Get(env, "level")), text))
  {
    hide Get, OrNull, GroupKey;
    GroupKeyOfMessage(env, stores, collapse);
  }

  /** Two message events share a key exactly when they agree in platform, level and signed text. */
  lemma MessageKeysEqualIff(
      env: seq<Entry>, stores: string -> Store, text: string,
      env': seq<Entry>, stores': string -> Store, text': string, collapse: string -> string)
    requires IsMessageEvent(env) && SignsText(env, collapse, text)
    requires IsMessageEvent(env') && SignsText(env', collapse, text')
    ensures GroupKey(env, stores, collapse) == GroupKey(env', stores', collapse) <==>
              && SameValue(Get(env, "platform"), Get(env', "platform"))
              && SameValue(Get(env, "level"), Get(env', "level"))
              && text == text'
  {
    hide Get, OrNull, SameValue, GroupKey, SignsText, IsMessageEvent;
    MessageKey(env, stores, collapse, text);
    MessageKey(env', stores', collapse, text');
    SameOrNull(Get(env, "platform"), Get(env', "platform"));
    SameOrNull(Get(env, "level"), Get(env', "level"));
  }

  /** An exception event and a message event never share a key. */
  lemma KindsApart(
      env: seq<Entry>, stores: string -> Store, link: Json, frames: seq<Json>,
      env': seq<Entry>, stores': string -> Store, text': string, collapse: string -> string)
    requires SignsOn(env, stores, link, frames)
    requires IsMessageEvent(env') && SignsText(env', collapse, text')
    ensures GroupKey(env, stores, collapse) != GroupKey(env', stores', collapse)
  {
    hide Get, OrNull, GroupKey, SignedFrames, MapsInEffect, Locations, SignsOn, SignsText, IsMessageEvent;
    ExceptionKey(env, stores, collapse, link, frames);
    MessageKey(env', stores', collapse, text');
  }

  // ---------------------------------------------------------------------
  // Events that are dropped
  // ---------------------------------------------------------------------

  /** A frame list that cannot be iterated. */
  ghost predicate FramesBroken(link: Json)
    requires link.Obj?
  {
    match Get(link.entries, "stacktrace")
    case Some(Obj(trace)) =>
      (match Get(trace, "frames")
       case Some(Null) => true
       case Some(Bool(_)) => true
       case Some(Int(_)) => true
       case Some(Float(_)) => true
       case _ => false)
    case _ => false
  }

  /** Computing the key raises, which drops the event, exactly when the signed exception's frames cannot be iterated. */
  lemma KeyMissingIff(env: seq<Entry>, x: Json, stores: string -> Store, collapse: string -> string)
    requires x.Obj? && Get(env, "exception") == Some(x)
    ensures GroupKey(env, stores, collapse).None? <==> FramesBroken(Walk(x, 4))
  {
    hide Get, GroupKey, LinkDescription, NormalizeException, NormalizeTrace, ChainRaises, TraceRaises, StoreOf, Walk, FramesBroken;
    GroupKeyOfChain(env, x, stores, collapse);
    var store := EffectiveStore(x, StoreOf(env, stores));
    if store.Some? {
      ChainLinkDoesNotRaise(x, 1, store.value);
    }
    LinkMissingIff(Walk(x, 4), store);
  }

  lemma LinkMissingIff(link: Json, store: Option<Store>)
    requires link.Obj?
    requires store.Some? ==> !TraceRaises(NormalizeTrace(Get(link.entries, "stacktrace")), store.value)
    ensures LinkDescription(link, store).None? <==> FramesBroken(link)
  {
    hide Get, Set, NormalizeFrames, SymbolicateItems, TraceRaises, SelectFrames, Locations;
    var trace := NormalizeTrace(Get(link.entries, "stacktrace"));
    BrokenAfterNormalizing(link);
    if store.Some? {
      TraceRaisesIff(trace, store.value);
      BrokenAfterSymbolicating(trace, store.value);
    }
  }

  lemma BrokenAfterNormalizing(link: Json)
    requires link.Obj?
    ensures FrameList(NormalizeTrace(Get(link.entries, "stacktrace"))).None? <==> FramesBroken(link)
  {
    hide Get, Set, NormalizeFrames;
    match Get(link.entries, "stacktrace")
    case Some(Obj(trace)) =>
      if Get(trace, "frames").Some? && Get(trace, "frames").value.Arr? {
        GetSet(trace, "frames", Arr(NormalizeFrames(Get(trace, "frames").value.items)), "frames");
      }
    case _ =>
  }

  lemma BrokenAfterSymbolicating(trace: Option<Json>, store: Store)
    requires SymbolicateTrace(trace, store).Some?
    ensures FrameList(SymbolicateTrace(trace, store).value).None? <==> FrameList(trace).None?
  {
    hide Get, Set, SymbolicateItems;
    match trace
    case Some(Obj(entries)) =>
      if Get(entries, "frames").Some? && Get(entries, "frames").value.Arr? {
        var items := SymbolicateItems(Get(entries, "frames").value.items, store).value;
        GetSet(entries, "frames", Arr(items), "frames");
      }
    case _ =>
  }

  // ---------------------------------------------------------------------
  // When source maps apply
  // ---------------------------------------------------------------------

  /** Maps are looked up for JavaScript events of a named release only, under that release; any other event is left as it came. */
  lemma MapsApplyIff(env: seq<Entry>, stores: string -> Store, release: string)
    ensures NamesRelease(env, release) ==> StoreOf(env, stores) == Some(stores(release))
    ensures (forall r :: !NamesRelease(env, r)) ==>
              StoreOf(env, stores) == None && SymbolicateEnvelope(env, stores) == env
  {
    hide Get, Set, SymbolicateException;
    if Get(env, "release").Some? && Get(env, "release").value.Str? {
      assert NamesRelease(env, Get(env, "release").value.s) || Get(env, "platform") != Some(Str("javascript"))
        || Get(env, "release").value.s == "";
    }
  }

  predicate NamesRelease(env: seq<Entry>, release: string) {
    && Get(env, "platform") == Some(Str("javascript"))
    && Get(env, "release") == Some(Str(release)) && release != ""
  }
}
