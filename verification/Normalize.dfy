/** Server-side truncation of an event envelope. */
module Normalize {
  import opened Wrappers
  import opened Json
  import opened Exceptions

  const MESSAGE_MAX := 8192
  const TAG_KEY_MAX := 32
  const TAG_VALUE_MAX := 200
  const FILENAME_MAX := 256
  const FUNCTION_MAX := 256
  const CONTEXT_LINE_MAX := 256
  const MAX_BREADCRUMBS := 100
  const MAX_FRAMES := 128
  const MAX_CAUSE_DEPTH := 5
  const MARKER: string := "..."

  // ---------------------------------------------------------------------
  // Truncation
  // ---------------------------------------------------------------------

  function Truncate(value: string, limit: nat): string {
    if |value| <= limit then value
    else value[..if limit >= |MARKER| then limit - |MARKER| else 0] + MARKER
  }

  /**
   Truncation keeps within the limit exactly when the limit has room for the
   marker or nothing is cut; a string cut to a workable limit is exactly that
   long, a prefix followed by the marker.
   */
  lemma TruncateFits(value: string, limit: nat)
    ensures |Truncate(value, limit)| <= limit <==> |value| <= limit || limit >= |MARKER|
    ensures |value| > limit >= |MARKER| ==>
              |Truncate(value, limit)| == limit && Truncate(value, limit)[..limit - 3] == value[..limit - 3]
              && Truncate(value, limit)[limit - 3..] == MARKER
    ensures limit >= |MARKER| ==> Truncate(Truncate(value, limit), limit) == Truncate(value, limit)
  {
  }

  function TruncateText(j: Json, limit: nat): Json {
    if j.Str? then Str(Truncate(j.s, limit)) else j
  }

  predicate TextFits(j: Json, limit: nat) {
    j.Str? ==> |j.s| <= limit
  }

  lemma TruncateTextFits(j: Json, limit: nat)
    requires limit >= |MARKER|
    ensures TextFits(TruncateText(j, limit), limit)
    ensures TruncateText(j, limit) == j <==> TextFits(j, limit)
  {
    if j.Str? { TruncateFits(j.s, limit); }
  }

  /** The last `n` items: `items[-n:]`. */
  function Last(items: seq<Json>, n: nat): seq<Json> {
    if |items| <= n then items else items[|items| - n..]
  }

  /** Only the oldest items go, and only as many as the cap asks for. */
  lemma KeepsNewest(items: seq<Json>, n: nat)
    ensures |Last(items, n)| <= n
    ensures exists dropped :: items == dropped + Last(items, n) && (dropped == [] || |Last(items, n)| == n)
  {
    var dropped := items[..|items| - |Last(items, n)|];
    assert items == dropped + Last(items, n);
  }

  function CapText(j: Option<Json>, limit: nat): Option<Json> {
    match j
    case None => None
    case Some(v) => Some(TruncateText(v, limit))
  }

  predicate OptionalTextFits(j: Option<Json>, limit: nat) {
    j.Some? ==> TextFits(j.value, limit)
  }

  lemma CapTextFits(j: Option<Json>, limit: nat)
    requires limit >= |MARKER|
    ensures OptionalTextFits(CapText(j, limit), limit)
    ensures CapText(j, limit) == j <==> OptionalTextFits(j, limit)
  {
    if j.Some? { TruncateTextFits(j.value, limit); }
  }

  // ---------------------------------------------------------------------
  // One frame
  // ---------------------------------------------------------------------

  function TruncateItems(items: seq<Json>, limit: nat): seq<Json> {
    seq(|items|, i requires 0 <= i < |items| => TruncateText(items[i], limit))
  }

  function CapLines(j: Option<Json>): Option<Json> {
    match j
    case Some(Arr(items)) => Some(Arr(TruncateItems(items, CONTEXT_LINE_MAX)))
    case _ => j
  }

  predicate LinesFit(j: Option<Json>) {
    match j
    case Some(Arr(items)) => forall i :: 0 <= i < |items| ==> TextFits(items[i], CONTEXT_LINE_MAX)
    case _ => true
  }

  lemma CapLinesFit(j: Option<Json>)
    ensures LinesFit(CapLines(j))
    ensures CapLines(j) == j <==> LinesFit(j)
  {
    hide TextFits, TruncateText;
    match j
    case Some(Arr(items)) =>
      var out := TruncateItems(items, CONTEXT_LINE_MAX);
      forall i | 0 <= i < |items|
        ensures TextFits(out[i], CONTEXT_LINE_MAX) && (out[i] == items[i] <==> TextFits(items[i], CONTEXT_LINE_MAX))
      {
        TruncateTextFits(items[i], CONTEXT_LINE_MAX);
      }
      if LinesFit(j) { assert out == items; }
    case _ =>
  }

  function NormalizeFields(frame: seq<Entry>): seq<Entry> {
    var f1 := Put(frame, "filename", CapText(Get(frame, "filename"), FILENAME_MAX));
    var f2 := Put(f1, "function", CapText(Get(f1, "function"), FUNCTION_MAX));
    var f3 := Put(f2, "context_line", CapText(Get(f2, "context_line"), CONTEXT_LINE_MAX));
    var f4 := Put(f3, "pre_context", CapLines(Get(f3, "pre_context")));
    Put(f4, "post_context", CapLines(Get(f4, "post_context")))
  }

  predicate FieldsFit(frame: seq<Entry>) {
    && OptionalTextFits(Get(frame, "filename"), FILENAME_MAX)
    && OptionalTextFits(Get(frame, "function"), FUNCTION_MAX)
    && OptionalTextFits(Get(frame, "context_line"), CONTEXT_LINE_MAX)
    && LinesFit(Get(frame, "pre_context"))
    && LinesFit(Get(frame, "post_context"))
  }

  /** What normalisation leaves under one key of a frame. */
  function FieldAfter(frame: seq<Entry>, key: string): Option<Json> {
    if key == "filename" then CapText(Get(frame, key), FILENAME_MAX)
    else if key == "function" then CapText(Get(frame, key), FUNCTION_MAX)
    else if key == "context_line" then CapText(Get(frame, key), CONTEXT_LINE_MAX)
    else if key == "pre_context" || key == "post_context" then CapLines(Get(frame, key))
    else Get(frame, key)
  }

  lemma NormalizedField(frame: seq<Entry>, key: string)
    ensures Get(NormalizeFields(frame), key) == FieldAfter(frame, key)
  {
    hide Get, Put;
    var f1 := Put(frame, "filename", CapText(Get(frame, "filename"), FILENAME_MAX));
    var f2 := Put(f1, "function", CapText(Get(f1, "function"), FUNCTION_MAX));
    var f3 := Put(f2, "context_line", CapText(Get(f2, "context_line"), CONTEXT_LINE_MAX));
    var f4 := Put(f3, "pre_context", CapLines(Get(f3, "pre_context")));
    GetPut(frame, "filename", CapText(Get(frame, "filename"), FILENAME_MAX), key);
    GetPut(f1, "function", CapText(Get(f1, "function"), FUNCTION_MAX), key);
    GetPut(f2, "context_line", CapText(Get(f2, "context_line"), CONTEXT_LINE_MAX), key);
    GetPut(f3, "pre_context", CapLines(Get(f3, "pre_context")), key);
    GetPut(f4, "post_context", CapLines(Get(f4, "post_context")), key);
  }

  lemma NormalizedFieldsFit(frame: seq<Entry>)
    ensures FieldsFit(NormalizeFields(frame))
    ensures NormalizeFields(frame) == frame <==> FieldsFit(frame)
  {
    hide Get, Put, NormalizeFields, CapText, CapLines, OptionalTextFits, LinesFit;
    NormalizedField(frame, "filename");
    NormalizedField(frame, "function");
    NormalizedField(frame, "context_line");
    NormalizedField(frame, "pre_context");
    NormalizedField(frame, "post_context");
    CapTextFits(Get(frame, "filename"), FILENAME_MAX);
    CapTextFits(Get(frame, "function"), FUNCTION_MAX);
    CapTextFits(Get(frame, "context_line"), CONTEXT_LINE_MAX);
    CapLinesFit(Get(frame, "pre_context"));
    CapLinesFit(Get(frame, "post_context"));
    if FieldsFit(frame) { FittingFieldsFixed(frame); }
  }

  lemma FittingFieldsFixed(frame: seq<Entry>)
    requires FieldsFit(frame)
    ensures NormalizeFields(frame) == frame
  {
    hide Get, Put, CapText, CapLines, OptionalTextFits, LinesFit;
    CapTextFits(Get(frame, "filename"), FILENAME_MAX);
    PutSame(frame, "filename", Get(frame, "filename"));
    CapTextFits(Get(frame, "function"), FUNCTION_MAX);
    PutSame(frame, "function", Get(frame, "function"));
    CapTextFits(Get(frame, "context_line"), CONTEXT_LINE_MAX);
    PutSame(frame, "context_line", Get(frame, "context_line"));
    CapLinesFit(Get(frame, "pre_context"));
    PutSame(frame, "pre_context", Get(frame, "pre_context"));
    CapLinesFit(Get(frame, "post_context"));
    PutSame(frame, "post_context", Get(frame, "post_context"));
  }

  function NormalizeFrame(frame: Json): Json {
    if frame.Obj? then Obj(NormalizeFields(frame.entries)) else frame
  }

  predicate FrameFits(frame: Json) {
    frame.Obj? ==> FieldsFit(frame.entries)
  }

  // ---------------------------------------------------------------------
  // One stack trace
  // ---------------------------------------------------------------------

  function NormalizeFrames(frames: seq<Json>): seq<Json> {
    var capped := Last(frames, MAX_FRAMES);
    seq(|capped|, i requires 0 <= i < |capped| => NormalizeFrame(capped[i]))
  }

  predicate FramesFit(frames: seq<Json>) {
    |frames| <= MAX_FRAMES && forall i :: 0 <= i < |frames| ==> FrameFits(frames[i])
  }

  lemma NormalizedFrameFits(frame: Json)
    ensures FrameFits(NormalizeFrame(frame))
    ensures NormalizeFrame(frame) == frame <==> FrameFits(frame)
  {
    hide NormalizeFields, FieldsFit;
    if frame.Obj? { NormalizedFieldsFit(frame.entries); }
  }

  /** The last frames of the trace are kept, each normalised. */
  lemma NormalizedFrameAt(frames: seq<Json>, i: nat)
    requires i < |frames|
    ensures var out := NormalizeFrames(frames);
            var cut := |frames| - |out|;
            && 0 <= cut && (cut == 0 || |out| == MAX_FRAMES)
            && (i >= cut ==> out[i - cut] == NormalizeFrame(frames[i]))
  {
    hide NormalizeFrame;
  }

  lemma NormalizedFramesFit(frames: seq<Json>)
    ensures FramesFit(NormalizeFrames(frames))
    ensures NormalizeFrames(frames) == frames <==> FramesFit(frames)
  {
    hide NormalizeFrame, FrameFits;
    var capped, out := Last(frames, MAX_FRAMES), NormalizeFrames(frames);
    forall i | 0 <= i < |capped| ensures FrameFits(out[i]) && (out[i] == capped[i] <==> FrameFits(capped[i])) {
      NormalizedFrameFits(capped[i]);
    }
    if FramesFit(frames) { assert out == frames; }
    if out == frames { assert frames == capped; }
  }

  /** Keeps the frames nearest the crash: the last ones, each truncated. */
  function NormalizeTrace(trace: Option<Json>): Option<Json> {
    match trace
    case Some(Obj(entries)) =>
      (match Get(entries, "frames")
       case Some(Arr(frames)) => Some(Obj(Set(entries, "frames", Arr(NormalizeFrames(frames)))))
       case _ => trace)
    case _ => trace
  }

  predicate TraceFits(trace: Option<Json>) {
    match trace
    case Some(Obj(entries)) =>
      (match Get(entries, "frames")
       case Some(Arr(frames)) => FramesFit(frames)
       case _ => true)
    case _ => true
  }

  lemma NormalizedTraceFits(trace: Option<Json>)
    ensures TraceFits(NormalizeTrace(trace))
    ensures NormalizeTrace(trace) == trace <==> TraceFits(trace)
  {
    hide Get, Set, NormalizeFrames, FramesFit;
    match trace
    case Some(Obj(entries)) =>
      match Get(entries, "frames") {
        case Some(Arr(frames)) =>
          NormalizedFramesFit(frames);
          GetSet(entries, "frames", Arr(NormalizeFrames(frames)), "frames");
          if FramesFit(frames) { SetSame(entries, "frames", Arr(frames)); }
        case _ =>
      }
    case _ =>
  }

  // ---------------------------------------------------------------------
  // The cause chain
  // ---------------------------------------------------------------------

  function NormalizeException(x: Json, depth: nat): (out: Json)
    requires x.Obj?
    ensures out.Obj?
    decreases x
  {
    var entries := Put(x.entries, "stacktrace", NormalizeTrace(Get(x.entries, "stacktrace")));
    match Cause(x)
    case None => Obj(Remove(entries, "cause"))
    case Some(cause) =>
      if depth < MAX_CAUSE_DEPTH then Obj(Set(entries, "cause", NormalizeException(cause, depth + 1)))
      else Obj(Remove(entries, "cause"))
  }

  predicate ExceptionFits(x: Json, depth: nat)
    requires x.Obj?
    decreases x
  {
    && TraceFits(Get(x.entries, "stacktrace"))
    && match Cause(x)
       case None => Get(x.entries, "cause").None?
       case Some(cause) => depth < MAX_CAUSE_DEPTH && ExceptionFits(cause, depth + 1)
  }

  /** What normalisation leaves under one key of an exception. */
  function ExceptionFieldAfter(x: Json, depth: nat, key: string): Option<Json>
    requires x.Obj?
  {
    if key == "stacktrace" then NormalizeTrace(Get(x.entries, key))
    else if key == "cause" then
      if Cause(x).Some? && depth < MAX_CAUSE_DEPTH then Some(NormalizeException(Cause(x).value, depth + 1)) else None
    else Get(x.entries, key)
  }

  lemma NormalizedExceptionField(x: Json, depth: nat, key: string)
    requires x.Obj?
    ensures Get(NormalizeException(x, depth).entries, key) == ExceptionFieldAfter(x, depth, key)
  {
    hide Get, Set, Put, Remove, NormalizeTrace;
    var trace := NormalizeTrace(Get(x.entries, "stacktrace"));
    var entries := Put(x.entries, "stacktrace", trace);
    GetPut(x.entries, "stacktrace", trace, key);
    GetRemove(entries, "cause", key);
    TraceStays(Get(x.entries, "stacktrace"));
    if Cause(x).Some? {
      GetSet(entries, "cause", NormalizeException(Cause(x).value, depth + 1), key);
    }
  }

  lemma TraceStays(trace: Option<Json>)
    ensures NormalizeTrace(trace).Some? <==> trace.Some?
    ensures NormalizeTrace(trace).Some? && NormalizeTrace(trace).value.Obj? <==> trace.Some? && trace.value.Obj?
  {
  }

  lemma {:induction false} NormalizedExceptionFits(x: Json, depth: nat)
    requires x.Obj? && depth <= MAX_CAUSE_DEPTH
    ensures ExceptionFits(NormalizeException(x, depth), depth)
    ensures depth + Depth(NormalizeException(x, depth)) <= MAX_CAUSE_DEPTH + 1
    decreases x
  {
    hide Get, Put, Set, Remove, NormalizeTrace, TraceFits;
    var out := NormalizeException(x, depth);
    NormalizedExceptionField(x, depth, "stacktrace");
    NormalizedExceptionField(x, depth, "cause");
    NormalizedTraceFits(Get(x.entries, "stacktrace"));
    if Cause(x).Some? && depth < MAX_CAUSE_DEPTH {
      NormalizedExceptionFits(Cause(x).value, depth + 1);
      assert Cause(out) == Some(NormalizeException(Cause(x).value, depth + 1));
    } else {
      assert Cause(out).None?;
    }
  }

  lemma {:induction false} FittingExceptionFixed(x: Json, depth: nat)
    requires x.Obj? && ExceptionFits(x, depth)
    ensures NormalizeException(x, depth) == x
    decreases x
  {
    hide Get, Put, Set, Remove, NormalizeTrace, TraceFits;
    var trace := Get(x.entries, "stacktrace");
    NormalizedTraceFits(trace);
    PutSame(x.entries, "stacktrace", trace);
    match Cause(x)
    case None => RemoveAbsent(x.entries, "cause");
    case Some(cause) =>
      FittingExceptionFixed(cause, depth + 1);
      SetSame(x.entries, "cause", cause);
  }

  // ---------------------------------------------------------------------
  // Tags
  // ---------------------------------------------------------------------

  /** The tag dictionary rebuilt entry by entry; keys that become equal collide. */
  function CapTags(tags: seq<Entry>): seq<Entry> {
    if tags == [] then []
    else
      var last := tags[|tags| - 1];
      Set(CapTags(tags[..|tags| - 1]), Truncate(last.key, TAG_KEY_MAX), TruncateText(last.value, TAG_VALUE_MAX))
  }

  predicate TagFits(tag: Entry) {
    |tag.key| <= TAG_KEY_MAX && TextFits(tag.value, TAG_VALUE_MAX)
  }

  predicate TagsFit(tags: seq<Entry>) {
    Distinct(tags) && forall i :: 0 <= i < |tags| ==> TagFits(tags[i])
  }

  lemma {:induction false} CappedTagsFit(tags: seq<Entry>)
    ensures TagsFit(CapTags(tags))
  {
    hide Set, Truncate, TruncateText, TextFits;
    if tags != [] {
      var front, last := tags[..|tags| - 1], tags[|tags| - 1];
      CappedTagsFit(front);
      TruncateFits(last.key, TAG_KEY_MAX);
      TruncateTextFits(last.value, TAG_VALUE_MAX);
      SetDistinct(CapTags(front), Truncate(last.key, TAG_KEY_MAX), TruncateText(last.value, TAG_VALUE_MAX));
    }
  }

  lemma {:induction false} FittingTagsFixed(tags: seq<Entry>)
    requires TagsFit(tags)
    ensures CapTags(tags) == tags
  {
    hide Set, Get, TextFits;
    if tags != [] {
      var front, last := tags[..|tags| - 1], tags[|tags| - 1];
      FittingTagsFixed(front);
      TruncateTextFits(last.value, TAG_VALUE_MAX);
      assert TagFits(last);
      GetIsEntry(front, last.key);
      SetAppends(front, last.key, last.value);
      assert front + [last] == tags;
    }
  }

  /** `i` is the last tag whose truncated key is `key`. */
  ghost predicate IsLastTag(tags: seq<Entry>, key: string, i: int) {
    && 0 <= i < |tags| && Truncate(tags[i].key, TAG_KEY_MAX) == key
    && forall j :: i < j < |tags| ==> Truncate(tags[j].key, TAG_KEY_MAX) != key
  }

  /** On a collision the last of the colliding tags wins. */
  lemma {:induction false} CollidingTagsKeepLast(tags: seq<Entry>, key: string, i: int)
    requires IsLastTag(tags, key, i)
    ensures Get(CapTags(tags), key) == Some(TruncateText(tags[i].value, TAG_VALUE_MAX))
  {
    hide Set, Get, Truncate, TruncateText;
    var front, last := tags[..|tags| - 1], tags[|tags| - 1];
    GetSet(CapTags(front), Truncate(last.key, TAG_KEY_MAX), TruncateText(last.value, TAG_VALUE_MAX), key);
    if i < |tags| - 1 {
      assert forall j :: 0 <= j < |front| ==> front[j] == tags[j];
      CollidingTagsKeepLast(front, key, i);
    }
  }

  function NormalizeTags(tags: Option<Json>): Option<Json> {
    match tags
    case Some(Obj(entries)) => Some(Obj(CapTags(entries)))
    case _ => tags
  }

  predicate OptionalTagsFit(tags: Option<Json>) {
    match tags
    case Some(Obj(entries)) => TagsFit(entries)
    case _ => true
  }

  // ---------------------------------------------------------------------
  // The envelope
  // ---------------------------------------------------------------------

  function CapBreadcrumbs(j: Option<Json>): Option<Json> {
    match j
    case Some(Arr(items)) => Some(Arr(Last(items, MAX_BREADCRUMBS)))
    case _ => j
  }

  predicate BreadcrumbsFit(j: Option<Json>) {
    match j
    case Some(Arr(items)) => |items| <= MAX_BREADCRUMBS
    case _ => true
  }

  function NormalizeOptionalException(j: Option<Json>): Option<Json> {
    match j
    case Some(Obj(entries)) => Some(NormalizeException(Obj(entries), 1))
    case _ => j
  }

  predicate OptionalExceptionFits(j: Option<Json>) {
    match j
    case Some(Obj(entries)) => ExceptionFits(Obj(entries), 1)
    case _ => true
  }

  function NormalizeEnvelope(env: seq<Entry>): seq<Entry> {
    var e1 := Put(env, "message", CapText(Get(env, "message"), MESSAGE_MAX));
    var e2 := Put(e1, "tags", NormalizeTags(Get(e1, "tags")));
    var e3 := Put(e2, "breadcrumbs", CapBreadcrumbs(Get(e2, "breadcrumbs")));
    Put(e3, "exception", NormalizeOptionalException(Get(e3, "exception")))
  }

  /** Every cap that normalisation applies, stated on an envelope. */
  predicate EnvelopeFits(env: seq<Entry>) {
    && OptionalTextFits(Get(env, "message"), MESSAGE_MAX)
    && OptionalTagsFit(Get(env, "tags"))
    && BreadcrumbsFit(Get(env, "breadcrumbs"))
    && OptionalExceptionFits(Get(env, "exception"))
  }

  /** What normalisation leaves under one key of an envelope. */
  function EnvelopeFieldAfter(env: seq<Entry>, key: string): Option<Json> {
    if key == "message" then CapText(Get(env, key), MESSAGE_MAX)
    else if key == "tags" then NormalizeTags(Get(env, key))
    else if key == "breadcrumbs" then CapBreadcrumbs(Get(env, key))
    else if key == "exception" then NormalizeOptionalException(Get(env, key))
    else Get(env, key)
  }

  lemma NormalizedEnvelopeField(env: seq<Entry>, key: string)
    ensures Get(NormalizeEnvelope(env), key) == EnvelopeFieldAfter(env, key)
  {
    hide Get, Put, CapTags, NormalizeException, Last;
    var e1 := Put(env, "message", CapText(Get(env, "message"), MESSAGE_MAX));
    var e2 := Put(e1, "tags", NormalizeTags(Get(e1, "tags")));
    var e3 := Put(e2, "breadcrumbs", CapBreadcrumbs(Get(e2, "breadcrumbs")));
    GetPut(env, "message", CapText(Get(env, "message"), MESSAGE_MAX), key);
    GetPut(e1, "tags", NormalizeTags(Get(e1, "tags")), key);
    GetPut(e2, "breadcrumbs", CapBreadcrumbs(Get(e2, "breadcrumbs")), key);
    GetPut(e3, "exception", NormalizeOptionalException(Get(e3, "exception")), key);
  }

  /** The result of normalisation is within every cap it applies. */
  lemma NormalizedEnvelopeFits(env: seq<Entry>)
    ensures EnvelopeFits(NormalizeEnvelope(env))
  {
    hide Get, Put, NormalizeEnvelope, CapTags, TagsFit, NormalizeException, ExceptionFits, OptionalTextFits, CapText;
    NormalizedEnvelopeField(env, "message");
    NormalizedEnvelopeField(env, "tags");
    NormalizedEnvelopeField(env, "breadcrumbs");
    NormalizedEnvelopeField(env, "exception");
    CapTextFits(Get(env, "message"), MESSAGE_MAX);
    match Get(env, "tags") { case Some(Obj(entries)) => CappedTagsFit(entries); case _ => }
    match Get(env, "exception") { case Some(Obj(entries)) => NormalizedExceptionFits(Obj(entries), 1); case _ => }
  }

  lemma FittingEnvelopeFixed(env: seq<Entry>)
    requires EnvelopeFits(env)
    ensures NormalizeEnvelope(env) == env
  {
    hide Get, Put, CapTags, TagsFit, NormalizeException, ExceptionFits, OptionalTextFits, CapText;
    CapTextFits(Get(env, "message"), MESSAGE_MAX);
    PutSame(env, "message", Get(env, "message"));
    match Get(env, "tags") { case Some(Obj(entries)) => FittingTagsFixed(entries); case _ => }
    PutSame(env, "tags", Get(env, "tags"));
    PutSame(env, "breadcrumbs", Get(env, "breadcrumbs"));
    match Get(env, "exception") { case Some(Obj(entries)) => FittingExceptionFixed(Obj(entries), 1); case _ => }
    PutSame(env, "exception", Get(env, "exception"));
  }

  /** Normalisation changes nothing exactly on the envelopes already within the caps; so it is idempotent. */
  lemma NormalizeFixedIff(env: seq<Entry>)
    ensures NormalizeEnvelope(env) == env <==> EnvelopeFits(env)
    ensures NormalizeEnvelope(NormalizeEnvelope(env)) == NormalizeEnvelope(env)
  {
    hide NormalizeEnvelope, EnvelopeFits;
    NormalizedEnvelopeFits(env);
    FittingEnvelopeFixed(NormalizeEnvelope(env));
    if EnvelopeFits(env) { FittingEnvelopeFixed(env); }
  }
}
