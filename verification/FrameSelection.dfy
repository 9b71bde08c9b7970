/** Which stack frames a fingerprint is computed from. */
module FrameSelection {
  import opened Json
  import opened Normalize
  import opened Sequences

  const FINGERPRINT_FRAME_LIMIT := 8

  function ObjectFrames(frames: seq<Json>): (out: seq<Json>)
    ensures forall i :: 0 <= i < |out| ==> out[i].Obj? && out[i] in frames
  {
    if frames == [] then []
    else (if frames[0].Obj? then [frames[0]] else []) + ObjectFrames(frames[1..])
  }

  predicate InApp(frame: Json)
    requires frame.Obj?
  {
    match Get(frame.entries, "in_app")
    case None => true
    case Some(v) => Truthy(v)
  }

  function InAppFrames(frames: seq<Json>): (out: seq<Json>)
    requires forall i :: 0 <= i < |frames| ==> frames[i].Obj?
    ensures forall i :: 0 <= i < |out| ==> out[i].Obj? && out[i] in frames && InApp(out[i])
  {
    if frames == [] then []
    else (if InApp(frames[0]) then [frames[0]] else []) + InAppFrames(frames[1..])
  }

  /** In-app frames when there are any, otherwise all of them; the last eight. */
  function SelectFrames(frames: seq<Json>): (out: seq<Json>)
    ensures forall i :: 0 <= i < |out| ==> out[i].Obj? && out[i] in frames
    ensures |out| <= FINGERPRINT_FRAME_LIMIT
    ensures out == [] <==> forall i :: 0 <= i < |frames| ==> !frames[i].Obj?
  {
    var objects := ObjectFrames(frames);
    ObjectFramesEmpty(frames);
    var inApp := InAppFrames(objects);
    Last(if inApp != [] then inApp else objects, FINGERPRINT_FRAME_LIMIT)
  }

  lemma {:induction false} ObjectFramesEmpty(frames: seq<Json>)
    ensures ObjectFrames(frames) == [] <==> forall i :: 0 <= i < |frames| ==> !frames[i].Obj?
  {
    if frames != [] {
      ObjectFramesEmpty(frames[1..]);
      assert forall i :: 1 <= i < |frames| ==> frames[i] == frames[1..][i - 1];
    }
  }

  // ---------------------------------------------------------------------
  // What the selection keeps, by position
  // ---------------------------------------------------------------------

  predicate Keeps(frame: Json, inAppOnly: bool) {
    frame.Obj? && (inAppOnly ==> InApp(frame))
  }

  /** The places of the kept frames, counted from `base`. */
  function Places(frames: seq<Json>, inAppOnly: bool, base: nat): seq<nat> {
    if frames == [] then []
    else (if Keeps(frames[0], inAppOnly) then [base] else []) + Places(frames[1..], inAppOnly, base + 1)
  }

  lemma {:induction false} PlacesOk(frames: seq<Json>, inAppOnly: bool, base: nat)
    ensures Ascending(Places(frames, inAppOnly, base))
    ensures forall p :: p in Places(frames, inAppOnly, base) ==> base <= p < base + |frames|
  {
    hide Keeps;
    if frames != [] {
      PlacesOk(frames[1..], inAppOnly, base + 1);
      var rest := Places(frames[1..], inAppOnly, base + 1);
      assert forall k :: 0 <= k < |rest| ==> rest[k] in rest;
    }
  }

  lemma {:induction false} PlaceIff(frames: seq<Json>, inAppOnly: bool, base: nat, p: nat)
    requires base <= p < base + |frames|
    ensures p in Places(frames, inAppOnly, base) <==> Keeps(frames[p - base], inAppOnly)
  {
    hide Keeps;
    PlacesOk(frames[1..], inAppOnly, base + 1);
    if p > base {
      PlaceIff(frames[1..], inAppOnly, base + 1, p);
    }
  }

  function Filtered(frames: seq<Json>, inAppOnly: bool): seq<Json> {
    if inAppOnly then InAppFrames(ObjectFrames(frames)) else ObjectFrames(frames)
  }

  lemma FilteredStep(frames: seq<Json>, inAppOnly: bool)
    requires frames != []
    ensures Filtered(frames, inAppOnly)
         == (if Keeps(frames[0], inAppOnly) then [frames[0]] else []) + Filtered(frames[1..], inAppOnly)
  {
    hide InApp;
    var rest := ObjectFrames(frames[1..]);
    assert [] + rest == rest;
    if frames[0].Obj? { assert ([frames[0]] + rest)[1..] == rest; }
  }

  /** The frames at the given places. */
  predicate Matches(frames: seq<Json>, base: nat, places: seq<nat>, out: seq<Json>) {
    && |places| == |out|
    && forall k :: 0 <= k < |places| ==> base <= places[k] < base + |frames| && out[k] == frames[places[k] - base]
  }

  lemma MatchesLonger(frames: seq<Json>, base: nat, places: seq<nat>, out: seq<Json>)
    requires frames != [] && Matches(frames[1..], base + 1, places, out)
    ensures Matches(frames, base, places, out)
    ensures Matches(frames, base, [base] + places, [frames[0]] + out)
  {
  }

  lemma MatchesNothing(base: nat, inAppOnly: bool)
    ensures Matches([], base, [], Filtered([], inAppOnly))
  {
  }

  lemma {:induction false} FilteredMatches(frames: seq<Json>, inAppOnly: bool, base: nat)
    ensures Matches(frames, base, Places(frames, inAppOnly, base), Filtered(frames, inAppOnly))
  {
    hide Keeps, Filtered, Matches;
    if frames == [] {
      MatchesNothing(base, inAppOnly);
    } else {
      FilteredStep(frames, inAppOnly);
      var places, out := Places(frames[1..], inAppOnly, base + 1), Filtered(frames[1..], inAppOnly);
      FilteredMatches(frames[1..], inAppOnly, base + 1);
      MatchesLonger(frames, base, places, out);
      assert [] + places == places && [] + out == out;
    }
  }

  /** In-app, or any object frame when no frame is in-app. */
  predicate Eligible(frames: seq<Json>, i: int)
    requires 0 <= i < |frames|
  {
    Keeps(frames[i], true) || (Keeps(frames[i], false) && forall j :: 0 <= j < |frames| ==> !Keeps(frames[j], true))
  }

  /** The places of the signed frames: eligible, in order, at most eight, and any left out is further from the crash. */
  ghost predicate IsSelection(frames: seq<Json>, places: seq<nat>, out: seq<Json>) {
    && |out| <= 8 && Ascending(places) && Matches(frames, 0, places, out)
    && (forall i :: i in places ==> i < |frames| && Eligible(frames, i))
    && (forall i: nat :: i < |frames| && Eligible(frames, i) && i !in places ==>
          |out| == 8 && i < places[0])
  }

  lemma EligiblePlace(frames: seq<Json>, i: nat)
    requires i < |frames|
    ensures i in Places(frames, Filtered(frames, true) != [], 0) <==> Eligible(frames, i)
  {
    hide Places, Keeps, Filtered;
    var inApp := Places(frames, true, 0);
    PlaceIff(frames, Filtered(frames, true) != [], 0, i);
    FilteredMatches(frames, true, 0);
    if inApp != [] {
      PlaceIff(frames, true, 0, inApp[0]);
    } else {
      forall j: nat | j < |frames| ensures !Keeps(frames[j], true) {
        PlaceIff(frames, true, 0, j);
      }
      InAppIsObject(frames[i]);
    }
    InAppIsObject(frames[i]);
  }

  lemma InAppIsObject(frame: Json)
    ensures Keeps(frame, true) ==> Keeps(frame, false)
  {
  }

  lemma SelectIsLast(frames: seq<Json>)
    ensures SelectFrames(frames) == Last(Filtered(frames, Filtered(frames, true) != []), FINGERPRINT_FRAME_LIMIT)
  {
  }

  /** The last of the places, and of the frames at them. */
  lemma LastMatches(frames: seq<Json>, places: seq<nat>, out: seq<Json>)
    requires Matches(frames, 0, places, out)
    ensures var kept := Last(out, FINGERPRINT_FRAME_LIMIT);
            Matches(frames, 0, places[|places| - |kept|..], kept)
  {
  }

  lemma LeftOut(places: seq<nat>, n: nat, i: nat)
    requires n <= |places| && Ascending(places) && i in places && i !in places[n..]
    ensures n > 0 && (n < |places| ==> i < places[n])
  {
    var k: nat :| k < |places| && places[k] == i;
    assert forall j :: n <= j < |places| ==> places[j] == places[n..][j - n];
  }

  lemma SuffixPlaces(places: seq<nat>, n: nat)
    requires n <= |places| && Ascending(places)
    ensures Ascending(places[n..]) && forall i :: i in places[n..] ==> i in places
  {
  }

  lemma SameLength(frames: seq<Json>, places: seq<nat>, out: seq<Json>)
    requires Matches(frames, 0, places, out)
    ensures |places| == |out|
  {
  }

  /** The signature takes the eight eligible frames nearest the crash. */
  lemma SelectsNearestFrames(frames: seq<Json>)
    ensures exists places :: IsSelection(frames, places, SelectFrames(frames))
  {
    hide SelectFrames, Filtered, Places, Eligible, Keeps, Matches, Ascending;
    var inAppOnly := Filtered(frames, true) != [];
    var all := Places(frames, inAppOnly, 0);
    var out := SelectFrames(frames);
    SelectIsLast(frames);
    PlacesOk(frames, inAppOnly, 0);
    FilteredMatches(frames, inAppOnly, 0);
    SameLength(frames, all, Filtered(frames, inAppOnly));
    LastMatches(frames, all, Filtered(frames, inAppOnly));
    var n := |all| - |out|;
    var places := all[n..];
    SuffixPlaces(all, n);
    forall i | i in places ensures i < |frames| && Eligible(frames, i) {
      EligiblePlace(frames, i);
    }
    forall i: nat | i < |frames| && Eligible(frames, i) && i !in places
      ensures |out| == 8 && i < places[0]
    {
      EligiblePlace(frames, i);
      LeftOut(all, n, i);
    }
    assert IsSelection(frames, places, out);
  }
}
