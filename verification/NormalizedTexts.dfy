/** The caps of normalisation field by field, in the numbers of the protocol. */
module NormalizedTexts {
  import opened Wrappers
  import opened Json
  import opened Exceptions
  import opened Normalize

  /** A text within the limit, or its beginning and three dots, together as long as the limit. */
  function Cut(s: string, limit: nat): string
    requires limit >= 3
  {
    if |s| <= limit then s else s[..limit - 3] + "..."
  }

  /** A field after capping: texts are cut, other values stay. */
  ghost predicate IsCut(before: Option<Json>, after: Option<Json>, limit: nat)
    requires limit >= 3
  {
    match before
    case Some(Str(s)) => after == Some(Str(Cut(s, limit)))
    case _ => after == before
  }

  /** A list of lines after capping: each text cut, the rest and other values as they are. */
  ghost predicate LinesCut(before: Option<Json>, after: Option<Json>, limit: nat)
    requires limit >= 3
  {
    match before
    case Some(Arr(items)) =>
      && after.Some? && after.value.Arr? && |after.value.items| == |items|
      && forall i :: 0 <= i < |items| ==> IsCut(Some(items[i]), Some(after.value.items[i]), limit)
    case _ => after == before
  }

  lemma CapTextCuts(j: Option<Json>, limit: nat)
    requires limit >= 3
    ensures IsCut(j, CapText(j, limit), limit)
  {
  }

  lemma CapLinesCut(j: Option<Json>)
    ensures LinesCut(j, CapLines(j), 256)
  {
    match j
    case Some(Arr(items)) =>
      forall i | 0 <= i < |items| ensures IsCut(Some(items[i]), Some(CapLines(j).value.items[i]), 256) {
        assert CapLines(j).value.items[i] == TruncateText(items[i], CONTEXT_LINE_MAX);
        CapTextCuts(Some(items[i]), 256);
      }
    case _ =>
  }

  /** File name, function and every context line of a frame are cut to 256 characters; all else stays. */
  lemma FrameTexts(frame: seq<Entry>, key: string)
    ensures var before, after := Get(frame, key), Get(NormalizeFields(frame), key);
            if key == "filename" || key == "function" || key == "context_line" then IsCut(before, after, 256)
            else if key == "pre_context" || key == "post_context" then LinesCut(before, after, 256)
            else after == before
  {
    hide Get, NormalizeFields, CapText, CapLines, IsCut, LinesCut;
    NormalizedField(frame, key);
    CapTextCuts(Get(frame, key), 256);
    CapLinesCut(Get(frame, key));
  }

  /** The frames after capping: the last 128, object frames with their texts cut, other elements as they are. */
  ghost predicate FramesCut(frames: seq<Json>, out: seq<Json>) {
    var cut := if |frames| > 128 then |frames| - 128 else 0;
    && |out| == |frames| - cut
    && forall i :: 0 <= i < |out| ==>
         if frames[cut + i].Obj? then out[i] == Obj(NormalizeFields(frames[cut + i].entries)) else out[i] == frames[cut + i]
  }

  lemma FramesAreCut(frames: seq<Json>)
    ensures FramesCut(frames, NormalizeFrames(frames))
  {
    hide NormalizeFields;
    var out := NormalizeFrames(frames);
    var cut := if |frames| > 128 then |frames| - 128 else 0;
    assert |out| == |frames| - cut;
    forall i | 0 <= i < |out| ensures out[i] == NormalizeFrame(frames[cut + i]) {
      NormalizedFrameAt(frames, cut + i);
    }
  }

  /** Under a stack trace only the frames change. */
  ghost predicate TraceCut(before: Option<Json>, after: Option<Json>) {
    match before
    case Some(Obj(entries)) =>
      && after.Some? && after.value.Obj?
      && (forall key :: key != "frames" ==> Get(after.value.entries, key) == Get(entries, key))
      && FramesFieldCut(Get(entries, "frames"), Get(after.value.entries, "frames"))
    case _ => after == before
  }

  ghost predicate FramesFieldCut(before: Option<Json>, after: Option<Json>) {
    match before
    case Some(Arr(frames)) => after.Some? && after.value.Arr? && FramesCut(frames, after.value.items)
    case _ => after == before
  }

  lemma TraceIsCut(trace: Option<Json>)
    ensures TraceCut(trace, NormalizeTrace(trace))
  {
    hide Get, Set, NormalizeFrames, FramesCut;
    match trace
    case Some(Obj(entries)) =>
      match Get(entries, "frames") {
        case Some(Arr(frames)) =>
          FramesAreCut(frames);
          forall key ensures Get(Set(entries, "frames", Arr(NormalizeFrames(frames))), key)
                          == if key == "frames" then Some(Arr(NormalizeFrames(frames))) else Get(entries, key) {
            GetSet(entries, "frames", Arr(NormalizeFrames(frames)), key);
          }
        case _ =>
      }
    case _ =>
  }

  /**
   One exception of the chain: its trace capped, its cause kept up to the fifth
   exception and normalised in turn, a cause beyond that or one that is no
   object gone, everything else as it was.
   */
  lemma ExceptionCut(x: Json, depth: nat)
    requires x.Obj?
    ensures var out := NormalizeException(x, depth).entries;
            && TraceCut(Get(x.entries, "stacktrace"), Get(out, "stacktrace"))
            && Get(out, "cause") == (match Get(x.entries, "cause")
                                     case Some(Obj(cause)) =>
                                       if depth < 5 then Some(NormalizeException(Obj(cause), depth + 1)) else None
                                     case _ => None)
            && forall key :: key != "stacktrace" && key != "cause" ==> Get(out, key) == Get(x.entries, key)
  {
    hide Get, Set, Put, NormalizeTrace, TraceCut, NormalizeException;
    TraceIsCut(Get(x.entries, "stacktrace"));
    NormalizedExceptionField(x, depth, "stacktrace");
    NormalizedExceptionField(x, depth, "cause");
    forall key ensures Get(NormalizeException(x, depth).entries, key) == ExceptionFieldAfter(x, depth, key) {
      NormalizedExceptionField(x, depth, key);
    }
    CauseIs(x);
  }

  lemma CauseIs(x: Json)
    requires x.Obj?
    ensures Cause(x) == (match Get(x.entries, "cause") case Some(Obj(cause)) => Some(Obj(cause)) case _ => None)
  {
    hide Get;
  }

  /** The newest hundred of a list of breadcrumbs. */
  ghost predicate NewestKept(before: Option<Json>, after: Option<Json>) {
    match before
    case Some(Arr(items)) => after == Some(Arr(if |items| > 100 then items[|items| - 100..] else items))
    case _ => after == before
  }

  /** Tag keys cut to 32 characters, text values to 200; of tags that collide the last. */
  ghost predicate TagsCut(before: Option<Json>, after: Option<Json>) {
    match before
    case Some(Obj(tags)) =>
      && after.Some? && after.value.Obj? && Distinct(after.value.entries)
      && (forall key :: Get(after.value.entries, key).Some? <==> exists i :: 0 <= i < |tags| && Cut(tags[i].key, 32) == key)
      && (forall i :: IsLastCut(tags, i) ==> IsCut(Some(tags[i].value), Get(after.value.entries, Cut(tags[i].key, 32)), 200))
    case _ => after == before
  }

  ghost predicate IsLastCut(tags: seq<Entry>, i: int) {
    0 <= i < |tags| && forall j :: i < j < |tags| ==> Cut(tags[j].key, 32) != Cut(tags[i].key, 32)
  }

  lemma CutIsTruncate(s: string, limit: nat)
    requires limit >= 3
    ensures Truncate(s, limit) == Cut(s, limit)
  {
  }

  lemma {:induction false} CappedKeys(tags: seq<Entry>, key: string)
    ensures Get(CapTags(tags), key).Some? <==> exists i :: 0 <= i < |tags| && Cut(tags[i].key, 32) == key
  {
    hide Get, Set, Cut, Truncate;
    if tags == [] {
      assert Get([], key).None? by { GetIsEntry([], key); }
    } else {
      var front, last := tags[..|tags| - 1], tags[|tags| - 1];
      CappedKeys(front, key);
      CutIsTruncate(last.key, 32);
      GetSet(CapTags(front), Truncate(last.key, TAG_KEY_MAX), TruncateText(last.value, TAG_VALUE_MAX), key);
      assert forall i :: 0 <= i < |front| ==> front[i] == tags[i];
      if Cut(last.key, 32) == key { assert tags[|tags| - 1] == last; }
    }
  }

  lemma TagsAreCut(tags: Option<Json>)
    ensures TagsCut(tags, NormalizeTags(tags))
  {
    hide Get, CapTags, Cut, Truncate, TagFits;
    match tags
    case Some(Obj(entries)) =>
      CappedTagsFit(entries);
      forall key ensures Get(CapTags(entries), key).Some? <==> exists i :: 0 <= i < |entries| && Cut(entries[i].key, 32) == key {
        CappedKeys(entries, key);
      }
      forall i | IsLastCut(entries, i)
        ensures IsCut(Some(entries[i].value), Get(CapTags(entries), Cut(entries[i].key, 32)), 200)
      {
        LastCutKept(entries, i);
      }
    case _ =>
  }

  lemma LastCutKept(tags: seq<Entry>, i: int)
    requires IsLastCut(tags, i)
    ensures IsCut(Some(tags[i].value), Get(CapTags(tags), Cut(tags[i].key, 32)), 200)
  {
    hide Get, CapTags, Cut, Truncate, TruncateText, IsCut;
    forall j | 0 <= j < |tags| ensures Truncate(tags[j].key, TAG_KEY_MAX) == Cut(tags[j].key, 32) {
      CutIsTruncate(tags[j].key, 32);
    }
    CollidingTagsKeepLast(tags, Cut(tags[i].key, 32), i);
    CapTextCuts(Some(tags[i].value), 200);
  }

  /** The envelope: message to 8192 characters, tags, the newest hundred breadcrumbs, the exception; all else stays. */
  lemma EnvelopeCut(env: seq<Entry>)
    ensures var out := NormalizeEnvelope(env);
            && IsCut(Get(env, "message"), Get(out, "message"), 8192)
            && TagsCut(Get(env, "tags"), Get(out, "tags"))
            && NewestKept(Get(env, "breadcrumbs"), Get(out, "breadcrumbs"))
            && Get(out, "exception") == (match Get(env, "exception")
                                         case Some(Obj(x)) => Some(NormalizeException(Obj(x), 1))
                                         case other => other)
            && forall key :: key !in {"message", "tags", "breadcrumbs", "exception"} ==> Get(out, key) == Get(env, key)
  {
    hide Get, NormalizeEnvelope, NormalizeException, NormalizeTags, TagsCut, CapText, IsCut;
    forall key ensures Get(NormalizeEnvelope(env), key) == EnvelopeFieldAfter(env, key) {
      NormalizedEnvelopeField(env, key);
    }
    CapTextCuts(Get(env, "message"), 8192);
    TagsAreCut(Get(env, "tags"));
    assert Get(NormalizeEnvelope(env), "message") == EnvelopeFieldAfter(env, "message");
    assert Get(NormalizeEnvelope(env), "tags") == EnvelopeFieldAfter(env, "tags");
    assert Get(NormalizeEnvelope(env), "breadcrumbs") == EnvelopeFieldAfter(env, "breadcrumbs");
    assert Get(NormalizeEnvelope(env), "exception") == EnvelopeFieldAfter(env, "exception");
  }
}
