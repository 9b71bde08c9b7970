# CrashLens engines: models and proofs

CrashLens is a self-hosted error tracker. This project models the parts of it
whose correctness is easy to state and hard to see from the code, and proves
what those parts promise for every input and every run.

| files | what they model |
|---|---|
| `Vlq`, `SourceMaps`, `Lookup` | the base64-VLQ decoder, the Source Map v3 parser, position lookup and source context |
| `Symbolicate`, `MapPipeline` | rewriting JavaScript frames along a cause chain through uploaded maps, and the way from a compiler's table to the frame |
| `Normalize`, `NormalizedTexts`, `FrameSelection`, `Grouping`, `GroupKeys` | the caps applied to an event, the frames a fingerprint reads, and what decides which issue an event joins |
| `StoredPayload` | the caps of normalisation, on what is stored after symbolication |
| `ReleaseNames`, `DirnameDecoding` | the reversible directory name of a release, and what any other name decodes to |
| `Issues`, `Deliveries`, `IssueRuns`, `Regressions` | one project's tables: storing a delivered event, status actions, deletion, the release-aware regression rule, over whole runs |
| `RateLimit`, `RateLaws` | the token bucket in front of ingest |
| `Lockout`, `LockoutHistory` | the per-account login lockout |
| `Retention` | daily event partitions, their drop, and the per-project trim |
| `PythonTransport`, `NodeTransport` | the send queues of the two SDKs, as interleaved steps |
| `Wrappers`, `Sequences`, `Strings`, `Json` | results, order, splitting and joining, Python dictionaries and exception chains |

Code that changes state step by step is imperative here too: the VLQ, mappings
and lookup loops, the frame loop, `walk_to_root_cause`, and the classes
`Project`, `RateLimiter`, `User`, `EventTables` and the two `Transport`s. Each
method is tied by its contract to a function on values, and the theorems are
about those functions and about runs of them. In the transports the fields the
program has are real fields; where each thread stands in its code, and the
history of sent and dropped events, are ghost.

A JSON object is a list of entries in insertion order, because Python keeps a
rewritten key in place and because two tag keys can become one when truncated.
Times are integers (microseconds) except in the rate limiter, where seconds and
tokens are exact reals. Inputs from outside are parameters: clocks, password
verification, the map store (what is found under a file name), and the
placeholder substitution in messages.

Where the code and its own description differ, the model follows the code:

- `parse_source_map` says it raises ValueError only. A document whose `sources`
  is a nonzero number raises TypeError, which the loader does not catch, so the
  whole event stays unsymbolicated (`Symbolicate.NumericSourcesRaise`). This is
  why wrapping an exception can move an event to another issue
  (`Grouping.LoadFailureMovesGroup`); `Grouping.WrappingKeepsGroup` says exactly
  when.
- `delete_release_maps` describes removing one release's directory. For the
  empty release the name is empty and the whole project directory goes
  (`ReleaseNames.DeleteTouchesOneRelease`). This is a property of the function:
  its one caller takes the release from a path segment, which is never empty.
- `release_from_dirname` says it returns None for anything that is not
  unpadded base64url of UTF-8. Python's decoder passes over foreign characters
  instead: a stray directory `!` is listed as the empty release
  (`DirnameDecoding.StrayDirectoryDecodes`).
  `DirnameDecoding.StrayNameDecodesIff` says which names break the description,
  and `DirnameDecoding.AlphabetNamesAsDescribed` that none inside the alphabet do.
- In the Python SDK, `close` can discard an event without counting it off, after
  which no `flush` succeeds (`PythonTransport.ForcedDrainLosesCount`,
  `PythonTransport.NoFlushAfterDiscard`). It happens exactly when the queue is
  full once the flush of `close` has returned and still holds something when
  `close` drains (`PythonTransport.SignalWithRoom`,
  `PythonTransport.DrainLosesCountIff`).
- `close` there also promises to stop the worker. A submitter past the closed
  test can take the place the drain made, and then the shutdown marker is never
  queued (`PythonTransport.MarkerLost`); the worker stops exactly when there is
  room for the marker at the first or the second attempt
  (`PythonTransport.SignalReachesWorker`,
  `PythonTransport.ResignalReachesWorkerIff`, `PythonTransport.MarkedWorkerStops`).
- In the Node SDK, an overflow while a send is in flight drops the body being
  sent, and the shift after that send then removes a body that was never sent
  (`NodeTransport.ShiftedBodySentIff`, `NodeTransport.OverflowInFlightLosesNext`).
- Symbolication runs after normalisation, so the stored payload can break the
  caps normalisation applied (`StoredPayload.StoredPayloadBreaksCap`); it keeps them
  exactly when the maps that rewrote its frames do
  (`StoredPayload.StoredPayloadFitsIff`).

## Model

| member | source | states |
|---|---|---|
| Vlq.AlphabetIndex | server/app/sourcemaps.py:59-60 | a character's digit is exactly its place in the base64 alphabet string |
| Vlq.DecodeVlq | server/app/sourcemaps.py:337-366 | the accumulator-and-shift loop yields the numbers the segment denotes, or the error of the first place it goes wrong |
| Vlq.DecodeEncode | server/app/sourcemaps.py:337-366 | decoding inverts the standard encoder on every list of integers of any size |
| Vlq.DecodeConcat | server/app/sourcemaps.py:337-366 | a complete segment followed by another decodes to the concatenation; the second's error is the whole's error |
| Vlq.DecodeExplained | server/app/sourcemaps.py:340-365 | the outcome read off the characters alone: the error names the first character outside the alphabet; truncation only when all are inside and the last is a continuation digit |
| Vlq.DecodeFailsIff | server/app/sourcemaps.py:340-365 | decoding fails exactly on a foreign character or a dangling continuation |
| Vlq.KnownEncodings | server/app/sourcemaps.py:337-366 | the encoder is the format's on known numbers: sign in the lowest bit, five bits a digit, low digits first |
| SourceMaps.SortIsStable | server/app/sourcemaps.py:487-489 | the row sort is ordered by generated column and keeps the mapping order at each column |
| SourceMaps.StableSortUnique | server/app/sourcemaps.py:487-489 | order and stability admit one result, so any stable sort gives the same row |
| SourceMaps.ParseRow | server/app/sourcemaps.py:468-487 | one generated line: the piece loop with five counters reads the row its comma-separated segments denote and leaves the four file-wide counters where the next line needs them |
| SourceMaps.ParseMappings | server/app/sourcemaps.py:457-490 | the nested loops index exactly the lines with a bound segment, each sorted, the generated column restarting and the other counters running on |
| SourceMaps.ParseSourceMap | server/app/sourcemaps.py:439-490 | the whole parse, checks and errors in the code's order, equals the specification |
| SourceMaps.ParsedLists | server/app/sourcemaps.py:450-455 | sources, embedded sources and names of a parsed map are the elements its document lists, in order, with the empty text or nothing for an element that is no string, and none for a missing or falsy field |
| SourceMaps.ReadRowsFailsIff | server/app/sourcemaps.py:465-476 | a mappings string is accepted exactly when every piece of every line is a whole VLQ segment |
| SourceMaps.ParseFailsIff | server/app/sourcemaps.py:439-490 | which documents parse, and which raise the TypeError the docstring does not mention, both as conditions on the document |
| SourceMaps.MappingsRoundTrip | server/app/sourcemaps.py:457-490 | every table of absolute mappings comes back from its delta encoding without its 1-field entries |
| SourceMaps.LinesOfTable | server/app/sourcemaps.py:484-489 | a line is indexed exactly when it has a bound mapping; sorted rows come back unchanged, others in stable column order |
| SourceMaps.ParseRoundTrip | server/app/sourcemaps.py:439-490 | running the parser on a document holding an encoded table gives that table back line by line |
| SourceMaps.KnownMappings | server/app/sourcemaps.py:457-489 | the encoder is the format's on a known table: field order, which deltas restart with the line and which run on |
| Lookup.LookupPosition | server/app/sourcemaps.py:393-414 | the early-exit scan returns the last segment before the first one past the query |
| Lookup.BestIsUnique | server/app/sourcemaps.py:396-401 | at most one mapping is the last of those with the greatest column at or before the query |
| Lookup.ParsedLookup | server/app/sourcemaps.py:393-414 | on every parsed document, negative column deltas included, lookup answers with that mapping, judged in the order the mappings were written, and with nothing exactly when none starts by the query |
| Lookup.ContextIsWindow | server/app/sourcemaps.py:416-436 | there is a context exactly for a line of an embedded source; it is a contiguous window of it, five lines a side, fewer only at an end of the file |
| Symbolicate.FrameRewritten | server/app/sourcemaps.py:530-574 | for every key: a resolved frame holds the 1-based original position, the map's name and source lines where it has them, the minified values under raw keys, and is not in-app under `node_modules`; an unresolved frame and every other key are left alone |
| Symbolicate.FrameThroughEncodedMap | server/app/sourcemaps.py:393-574 | parser, lookup and rewriting together: for any encoded table, a frame at a generated position comes out with the source, line, column and name of the mapping that covers it, keeping its own file name or function where the map leaves that empty |
| Symbolicate.FrameBeforeMappingsKept | server/app/sourcemaps.py:544-551 | a frame before the first mapping of its line is left as it came |
| MapPipeline.FrameThroughDocument | server/app/sourcemaps.py:393-574 | on the inputs alone: a frame comes out at the source, line and column of the mapping of the table that covers it, under the source and function names the document lists, with its minified values kept and not in-app below `node_modules` |
| Symbolicate.FrameWithoutNumbersKept | server/app/sourcemaps.py:538-541 | a frame whose line or column is no integer or boolean is left as it came |
| MapPipeline.UnlistedSourceKept | server/app/sourcemaps.py:547-550 | a mapping to a source the document does not list leaves the frame as it came |
| MapPipeline.ContextThroughDocument | server/app/sourcemaps.py:416-436 | the frame's context lines are the embedded source's: the line of the origin, and up to five on either side |
| MapPipeline.MapNameOf | server/app/sourcemaps.py:141-150 | an asset's map is its name with `.map`, or the name itself when it is a map |
| MapPipeline.ContainsIff | server/app/sourcemaps.py:563-564 | the substring test, as a decomposition of the text |
| MapPipeline.FrameThroughUpload | server/app/sourcemaps.py:588-606 | a frame whose URL names an uploaded asset is rewritten through the parsed upload; without one, or with one that raises ValueError, it is left as it came; a TypeError escapes |
| Symbolicate.AssetOfUrl | server/app/sourcemaps.py:126-138 | a frame's URL names its asset whatever path precedes it and whatever query or fragment follows |
| Symbolicate.AssetIsClean | server/app/sourcemaps.py:108-138 | the name looked up in the store never holds a separator, a parent reference, a NUL, a query or a fragment |
| Symbolicate.NumericSourcesRaise | server/app/sourcemaps.py:451-509 | a numeric `sources` escapes the loader's error handling |
| Symbolicate.SymbolicateItems | server/app/sourcemaps.py:588-607 | one frame in, one frame out, each symbolicated on its own; it fails exactly through some frame whose map raises |
| Symbolicate.RewriteFrames | server/app/sourcemaps.py:588-606 | the frame loop computes that list or stops at the first raising load |
| Normalize.TruncateFits | server/app/jobs/process_event.py:92-104 | the result is within the limit exactly when nothing is cut or the marker fits; a cut string is exactly the limit long, a prefix plus the marker; truncating twice is truncating once |
| Normalize.KeepsNewest | server/app/jobs/process_event.py:156-191 | a cap on a list drops only its oldest items and only as many as needed |
| Normalize.NormalizedField | server/app/jobs/process_event.py:121-139 | what each key of a frame holds afterwards; keys without a cap are unchanged |
| Normalize.NormalizedFieldsFit | server/app/jobs/process_event.py:121-139 | every capped string of a frame is within its limit afterwards, and a frame is unchanged exactly when it already was |
| Normalize.NormalizedFrameAt | server/app/jobs/process_event.py:156-161 | the kept frames are the last ones, in place, each normalised |
| Normalize.NormalizedFramesFit | server/app/jobs/process_event.py:153-161 | at most 128 frames, each within its limits; unchanged exactly when that held before |
| Normalize.NormalizedExceptionField | server/app/jobs/process_event.py:142-168 | what each key of an exception holds afterwards, the cause present exactly when it is an object above the depth cap |
| Normalize.NormalizedExceptionFits | server/app/jobs/process_event.py:142-168 | every exception of the chain is within the caps and the chain ends by depth five |
| Normalize.FittingExceptionFixed | server/app/jobs/process_event.py:142-168 | a chain within the caps is returned as it was, key order included |
| Normalize.CappedTagsFit | server/app/jobs/process_event.py:178-186 | rebuilt tags have one entry a key, every key and value within its limit |
| Normalize.CollidingTagsKeepLast | server/app/jobs/process_event.py:178-186 | when truncated keys collide the last tag's value stays |
| Normalize.FittingTagsFixed | server/app/jobs/process_event.py:178-186 | tags within the limits are returned as they were, in order |
| Normalize.NormalizedEnvelopeField | server/app/jobs/process_event.py:171-201 | what each key of an envelope holds afterwards; unknown keys pass through |
| Normalize.NormalizedEnvelopeFits | server/app/jobs/process_event.py:171-201 | the result of normalisation is within every cap normalisation applies |
| Normalize.NormalizeFixedIff | server/app/jobs/process_event.py:171-201 | normalisation is the identity exactly on envelopes within the caps, and is idempotent |
| NormalizedTexts.FrameTexts | server/app/jobs/process_event.py:121-139 | file name, function and each context line longer than 256 characters become their first 253 and three dots; all else of a frame stays |
| NormalizedTexts.FramesAreCut | server/app/jobs/process_event.py:153-161 | the last 128 frames, in place |
| NormalizedTexts.ExceptionCut | server/app/jobs/process_event.py:142-168 | of an exception only trace and cause change: the trace's frames are capped, the cause stays an object up to the fifth exception and goes beyond |
| NormalizedTexts.TagsAreCut | server/app/jobs/process_event.py:178-186 | the tags afterwards: exactly the cut keys, each with the cut value of the last tag that has it |
| NormalizedTexts.EnvelopeCut | server/app/jobs/process_event.py:171-201 | the whole envelope in the protocol's numbers: message 8192, tags 32 and 200, the newest 100 breadcrumbs, the exception; all else stays |
| FrameSelection.SelectsNearestFrames | server/app/jobs/process_event.py:244-253 | the fingerprint reads, in order, the at most eight frames nearest the crash among the in-app ones, or among all object frames when none is in-app |
| Exceptions.WalkReachesRoot | server/app/jobs/process_event.py:204-216 | a bounded walk ends on an exception with no further cause exactly when its steps reach the end of the chain |
| Grouping.WalkToRootCause | server/app/jobs/process_event.py:204-216 | the five-step loop returns the true root of every chain of at most six |
| Grouping.NormalizeShift | server/app/jobs/process_event.py:142-168 | on a chain that fits, normalisation does not depend on the depth it starts at |
| Grouping.NormalizedRoot | server/app/jobs/process_event.py:142-168 | the root of a normalised chain is the normalised fifth exception, or the last of a shorter chain |
| Grouping.SymbolicatedField | server/app/sourcemaps.py:577-609 | what each key of a symbolicated exception holds |
| Grouping.SymbolicatedRoot | server/app/sourcemaps.py:577-609 | symbolication fails exactly when a load on the chain raises, and otherwise commutes with taking the root cause and keeps the depth |
| Grouping.SymbolicatedHeader | server/app/sourcemaps.py:612-648 | of all keys of an envelope only the exception changes, and only for JavaScript events with a release whose chain loads cleanly |
| Grouping.GroupKeyOfChain | server/app/jobs/process_event.py:219-270 | the signature of any exception event through normalise, symbolicate and fingerprint, in closed form for chains of any depth |
| Grouping.GroupKeyOfMessage | server/app/jobs/process_event.py:260-266 | an event without an exception groups by platform, level and its capped message after substitution, whatever source maps there are |
| GroupKeys.ExceptionKeysEqualIff | server/app/jobs/process_event.py:240-258 | two exception events share a key exactly when they agree in platform, in the type of the fifth or last exception, and frame by frame in file name and function of its signed frames |
| GroupKeys.MessageKeysEqualIff | server/app/jobs/process_event.py:259-265 | two message events share a key exactly when they agree in platform, level and capped message after substitution |
| GroupKeys.KindsApart | server/app/jobs/process_event.py:243-265 | an exception event and a message event never share a key |
| GroupKeys.KeyMissingIff | server/app/jobs/process_event.py:245-248 | computing the key raises exactly when the signed exception's frame list is a number, a boolean or null |
| GroupKeys.MapsApplyIff | server/app/sourcemaps.py:627-641 | maps are looked up under the release of a JavaScript event that names one; any other event is left as it came |
| Grouping.TraceRaisesIff | server/app/sourcemaps.py:577-609 | symbolicating a trace fails exactly when it lists an object frame whose file name leads to a map that raises |
| Grouping.OuterRaisesIff | server/app/jobs/process_event.py:142-168 | the condition below, read off the wrapping exception as sent: one of its last 128 frames leads, its file name capped, to such a map |
| Grouping.WrappingKeepsGroup | server/app/jobs/process_event.py:142-270 | wrapping a chain of at most four keeps its signature unless a map load for the new outer frames raises; then it is the signature of the minified root |
| Grouping.WrappingDeepChain | server/app/jobs/process_event.py:164-167 | for chains of any depth, wrapping moves the signature from the fifth exception to the fourth, each seen through the maps that take effect on its own chain |
| Grouping.WrappingFifthMovesGroup | server/app/jobs/process_event.py:164-167 | the bound of four is reached: a chain of five whose signature changes |
| Grouping.LoadFailureMovesGroup | server/app/sourcemaps.py:493-648 | a named event, wrapping exception and pair of uploaded documents: a chain of one whose signature changes because the outer exception's map raises |
| StoredPayload.ResolvedFrameFitsIff | server/app/sourcemaps.py:530-574 | a resolved frame stays within its limits exactly when the source name, function name and source lines the map gives for its position are within them |
| StoredPayload.ChainFitsIff | server/app/sourcemaps.py:577-609 | the same along a whole cause chain |
| StoredPayload.StoredPayloadFitsIff | server/app/jobs/process_event.py:496-519 | the stored payload is within every cap normalisation applies exactly when source maps do not apply, a load raises, or the maps consulted are within them |
| StoredPayload.StoredPayloadBreaksCap | server/app/jobs/process_event.py:496-519 | a named event, itself within every cap normalisation applies, and a named uploaded map document whose stored payload breaks one |
| ReleaseNames.Utf8RoundTrip | server/app/sourcemaps.py:84-105 | UTF-8 decoding inverts encoding on every string |
| ReleaseNames.Decode64Digits | server/app/sourcemaps.py:84-105 | the lenient base64 decoder inverts the padded encoding on every byte string |
| ReleaseNames.DirnameRoundTrip | server/app/sourcemaps.py:84-105 | stripping the padding and adding it back returns the release, for every release string |
| ReleaseNames.DirnamesAreSafe | server/app/sourcemaps.py:84-91 | names use the URL-safe alphabet only, are empty only for the empty release, and differ for different releases |
| ReleaseNames.UrlAlphabetIndex | server/app/sourcemaps.py:84-91 | the digits are written in the URL-safe alphabet of RFC 4648 section 5, place by place |
| ReleaseNames.KnownCharacters | server/app/sourcemaps.py:90 | UTF-8 on known characters of one to four bytes |
| ReleaseNames.KnownDirname | server/app/sourcemaps.py:84-91 | the directory of release `1.0` is `MS4w` |
| DirnameDecoding.DirnameDecodes | server/app/sourcemaps.py:94-105 | what every name decodes to, names holding padding or foreign characters included: the UTF-8 of the bytes of its digits up to the first completed padding, provided it ends where a group ends |
| DirnameDecoding.UnpaddedDirnameIff | server/app/sourcemaps.py:94-105 | a name without padding decodes exactly when it is ASCII, its digit count fits the padding added, and its bytes are UTF-8 |
| DirnameDecoding.AlphabetNamesAsDescribed | server/app/sourcemaps.py:94-100 | on names inside the URL-safe alphabet the docstring holds in both directions |
| DirnameDecoding.StrayNameDecodesIff | server/app/sourcemaps.py:94-105 | exactly which names decode although they are not unpadded base64url of UTF-8 |
| DirnameDecoding.StrayDirectoryDecodes | server/app/sourcemaps.py:94-105 | one that does: `!` |
| DirnameDecoding.PaddedNameDecodes | server/app/sourcemaps.py:94-105 | every release also decodes from its name with the padding left on |
| DirnameDecoding.Utf8Canonical | server/app/sourcemaps.py:94-105 | a string has one UTF-8 encoding the decoder accepts |
| DirnameDecoding.CanonicalIff | server/app/sourcemaps.py:84-105 | a name that decodes is the directory its release is given exactly when it is in the alphabet and leaves no bit over |
| ReleaseNames.DeleteTouchesOneRelease | server/app/sourcemaps.py:239-252 | deleting a non-empty release empties it and leaves every other release's files; the empty release takes them all; the result says whether anything was removed |
| Issues.LatestExists | server/app/issues.py:434-438 | a project with releases has one that is first by first-seen time, then version |
| Issues.LatestIsUnique | server/app/issues.py:434-438 | and only one, so the recorded fix release is determined |
| Issues.Project.IsDuplicate | server/app/jobs/process_event.py:458-460 | found exactly when the event id is stored |
| Issues.Project.ProcessEvent | server/app/jobs/process_event.py:515-678 | the transaction, statement by statement, takes the tables to the state, and returns the signal, of one delivery |
| Issues.Project.SetIssueStatus | server/app/issues.py:433-513 | resolve, ignore and reopen change one row's status and release fields and add one audit row, or nothing when there is no such row |
| Issues.Project.Delete | server/app/issues.py:695-739 | deletion removes the one row, audited, and no event |
| Deliveries.DeliveryWrites | server/app/jobs/process_event.py:370-456 | all that a counted delivery does, table by table: one event row of its six fields, the release's first-seen time, the issue's every field, one alert with the event's texts or none, and a signal that tells the row as it now is |
| Deliveries.DuplicateWritesNothing | server/app/jobs/process_event.py:525-537 | a stored event id changes nothing |
| Deliveries.ActionWrites | server/app/issues.py:433-445 | an action on an issue changes status and release fields only: resolving records the newest release, ignoring keeps the fix, reopening forgets it |
| Deliveries.DeletionWrites | server/app/issues.py:695-739 | a deletion removes the row and nothing else |
| Deliveries.ReachableLabels | server/app/jobs/process_event.py:386-390 | in every reachable state an issue has the level of the last of its events and the title of the alert that announced it |
| IssueRuns.ResendsAreIdentity | server/app/jobs/process_event.py:525-537 | from any state, a run equals the run without its repeated event ids |
| IssueRuns.ExactlyOnce | server/app/jobs/process_event.py:10-19 | delivery logs that agree once resends are removed leave the same issues, releases, events and alerts, actions and deletions mixed in |
| IssueRuns.AlwaysOrderable | server/app/jobs/process_event.py:342-347 | in every reachable state the releases the regression rule compares are recorded, so its unorderable branch is dead |
| IssueRuns.UpsertTallied | server/app/jobs/process_event.py:370-412 | after an upsert counter, first-seen and last-seen are those of the row's stored events |
| IssueRuns.StepKeepsInv | server/app/issues.py:433-445 | every delivery, action and deletion keeps the invariant: coherent release fields, exact tallies, status as the log implies, unique event ids, justified alerts |
| IssueRuns.RunKeepsInv | server/app/jobs/process_event.py:463-678 | so every reachable state satisfies it |
| Regressions.RegressionsBounded | server/app/jobs/process_event.py:386-400 | regressions of a row never outnumber its resolves, strictly fewer while it is resolved |
| Regressions.ResolveBetweenRegressions | server/app/jobs/process_event.py:601-607 | between two regression alerts of a row there is a resolve |
| Regressions.NewOnce | server/app/jobs/process_event.py:648-662 | each row is announced as new exactly once |
| Regressions.ReachableIssue | server/app/issues.py:433-445 | the invariant spelled out for any issue of any run from an empty project |
| Regressions.UntouchedStep | server/app/jobs/process_event.py:311-400 | a step that does not act on an issue leaves it alone or counts one event, flipping it exactly when it was resolved and the event is newer than the fix |
| Regressions.UnresolvedStays | server/app/jobs/process_event.py:386-400 | an unresolved, ignored or regressed issue keeps its status and release fields under any deliveries |
| Regressions.StragglerRule | server/app/jobs/process_event.py:311-347 | until the next action a resolved issue stays resolved exactly when no counted event is newer than the fix; otherwise it is regressed and names the first such event's release; all are counted |
| Regressions.ResolveHoldsAgainstKnownReleases | server/app/issues.py:433-439 | after a resolve, any number of events from releases already recorded leave the issue resolved on the latest release |
| Regressions.FirstNewerRegresses | server/app/jobs/process_event.py:386-400 | the first untagged or strictly newer event regresses the issue and stays the release it came back in, whatever follows |
| Regressions.DeletedComesBackNew | server/app/issues.py:695-739 | a deleted issue is not revived by resends; a fresh event opens a new row under an id never announced |
| RateLimit.ExpiryIsInvisible | server/app/ratelimit.py:35-39 | a bucket with expiry makes the same decisions and reports the same levels as one that never expires |
| RateLimit.DeniedIsUnobservable | server/app/ratelimit.py:62-74 | removing a denied call from a run changes no other decision and no other level |
| RateLimit.RateBound | server/app/ratelimit.py:46-75 | any run inside an interval admits at most the capacity plus what refills in it |
| RateLimit.SustainedRateAdmitted | server/app/ratelimit.py:46-75 | calls spaced by the refill interval are all admitted once one is |
| RateLimit.TakeInRange | server/app/ratelimit.py:62-74 | the level stays between zero and the capacity |
| RateLaws.OneCallOneToken | server/app/ratelimit.py:66-72 | an admitted call costs exactly one token, a denied one none, and only a bucket without a whole token denies |
| RateLaws.OutcomesAccount | server/app/ratelimit.py:62-74 | the exact account of a run: while no refill meets the cap, the level at each call is what was there plus what accrued less one for each call admitted |
| RateLaws.AtLeastTheTokens | server/app/ratelimit.py:46-75 | any run admits at least as many calls as it has, or as there are whole tokens at its start |
| RateLaws.BurstGetsTheTokens | server/app/ratelimit.py:46-75 | of calls at one instant exactly as many are admitted as there are whole tokens |
| RateLaws.IngestBurst | server/app/ratelimit.py:28-39 | the product's numbers: 120 calls at once for a new key, one token a second, expiry after 180 seconds |
| RateLaws.IngestExpiry | server/app/ratelimit.py:35-39 | a key is dropped exactly when idle for 180 seconds, and is full again after 120 |
| RateLimit.RetryAfterIsLeast | server/app/ratelimit.py:92-105 | a retry with no call in between is admitted exactly from the advertised whole second on (RFC 9110 section 10.2.3) |
| RateLimit.RateLimiter.Eval | server/app/ratelimit.py:46-75 | the script's effect on one key, an expired key being absent; every other key is unchanged |
| RateLimit.RateLimiter.CheckRateLimit | server/app/ratelimit.py:108-133 | the decision and the wait told to a denied caller, at least one second |
| Lockout.User.Authenticate | server/app/accounts.py:281-313 | one attempt's effect on the counter, the lock and the last login, and whether the password is verified at all |
| Lockout.RunKeepsInv | server/app/accounts.py:291-313 | the count stays within the threshold and a lock is recorded exactly when it equals it |
| Lockout.VerifiedWithinBudget | server/app/accounts.py:291-313 | from any such state, a stretch shorter than the duration with no login verifies at most what the counter and lock still allow |
| Lockout.LockoutBound | server/app/security.py:38-39 | after any history and for every k, any stretch shorter than k lockout durations without a login verifies at most 10k passwords |
| Lockout.BurstsReachBound | server/app/security.py:38-39 | for every k there is such a stretch that verifies exactly 10k |
| Lockout.BoundIsTight | server/app/security.py:38-39 | ten can be spent at once, and a stretch as long as the duration admits an eleventh |
| LockoutHistory.HistoryTells | server/app/accounts.py:291-313 | count, lock and last login after any run, read off the outcomes: failures since the last login or lock, a lock of fifteen minutes from every tenth |
| LockoutHistory.LoginIff | server/app/accounts.py:291-305 | in any run an attempt is refused exactly while a lock of earlier attempts runs, and otherwise logs in exactly with the right password |
| LockoutHistory.LoginRestores | server/app/accounts.py:301-305 | after a login the time is stamped, no lock is set, and nine failures set none |
| Lockout.LockedRefusesAll | server/app/accounts.py:291-294 | while locked every attempt is refused, the right password too, and the account does not change |
| Retention.LookaheadDays | server/app/jobs/retention.py:128-137 | exactly the days from today to the end of the window |
| Retention.MaxOf | server/app/jobs/retention.py:151-162 | the maximum: a member, and at least every member |
| Retention.ProjectsNeedingTrim | server/app/jobs/retention.py:188-201 | exactly the projects below the global maximum |
| Retention.EventTables.MaintainEventPartitions | server/app/jobs/retention.py:204-241 | maintenance adds the window's days and nothing else |
| Retention.EventTables.DropEventsPartitionsBefore | server/alembic/versions/0001_v1_schema.py:608-626 | the catalog loop drops exactly the days before the cutoff and, with them, their rows |
| Retention.EventTables.TrimOrg | server/app/jobs/retention.py:384-396 | one organisation's deletes remove exactly the rows expired for one of its projects below the maximum |
| Retention.EventTables.EnforceRetention | server/app/jobs/retention.py:290-348 | the two mechanisms in sequence |
| Retention.KeptIff | server/app/jobs/retention.py:290-404 | exactly which events of a listed project one run keeps |
| Retention.RetentionIsSafe | server/app/jobs/retention.py:308-348 | no event still inside its project's window is removed |
| Retention.RetentionIsTight | server/app/jobs/retention.py:308-404 | afterwards every event is at most its retention old, or under a day more for projects at the maximum |
| Retention.GlobalMaxIsLongest | server/app/jobs/retention.py:151-162 | the global maximum is a retention some project has and none exceeds, ninety days without projects |
| Retention.AttachedAfterRetention | server/app/jobs/retention.py:320-335 | the days attached after a run: those before it, less the ones older than the longest retention; no event is added |
| Retention.UnlistedKeptIff | server/app/jobs/retention.py:320-335 | events of a project no organisation lists go with their day only |
| Retention.AttachedAfterMaintenance | server/app/jobs/retention.py:204-241 | the days attached after maintenance: those before it, and today with the seven after it |
| Retention.RunKeepsValid | server/alembic/versions/0001_v1_schema.py:593-626 | over any run every stored row is in an attached partition |
| Retention.IngestHasHome | server/app/jobs/retention.py:128-148 | after maintenance on a day, on that day and the seven after it an event received now is stored, whatever retention and inserts ran since |
| Retention.EventSurvivesRun | server/app/jobs/retention.py:290-404 | a stored event survives any run for as long as it stays inside its project's window |
| PythonTransport.Transport.SubmitCheckOpen | sdks/python/src/crashlens/_transport.py:64-65 | the unlocked closed test |
| PythonTransport.Transport.SubmitPut | sdks/python/src/crashlens/_transport.py:66-76 | the newest event is queued, or dropped when the queue is full |
| PythonTransport.Transport.SubmitCount | sdks/python/src/crashlens/_transport.py:77 | the event is counted and the lock released |
| PythonTransport.Transport.WorkerTake | sdks/python/src/crashlens/_transport.py:112-116 | the oldest item leaves the queue, the shutdown marker stopping the worker |
| PythonTransport.Transport.WorkerUncount | sdks/python/src/crashlens/_transport.py:121-123 | the sent event is counted off under the lock |
| PythonTransport.Transport.WorkerNotify | sdks/python/src/crashlens/_transport.py:124-125 | at zero every waiter is woken, then the lock is released |
| PythonTransport.Transport.FlushCheck | sdks/python/src/crashlens/_transport.py:79-88 | drained exactly when the count is not positive; waits exactly when it is and time is left |
| PythonTransport.Transport.CloseBegin | sdks/python/src/crashlens/_transport.py:94-95 | the transport is closed to submitters and the flush of close entered |
| PythonTransport.Transport.CloseSignal | sdks/python/src/crashlens/_transport.py:96-97 | once that flush has returned, the shutdown marker is queued when there is room |
| PythonTransport.Transport.CloseDrain | sdks/python/src/crashlens/_transport.py:98-103 | otherwise the oldest item is discarded, uncounted |
| PythonTransport.Transport.CloseResignal | sdks/python/src/crashlens/_transport.py:104-107 | the second attempt to signal |
| PythonTransport.SubmitDropsIff | sdks/python/src/crashlens/_transport.py:66-77 | a submitted event is dropped exactly when a bounded queue is full, else it is the newest queued |
| PythonTransport.FlushOutcome | sdks/python/src/crashlens/_transport.py:79-88 | success at zero, failure when time is up above zero, waiting otherwise; no other flusher changes |
| PythonTransport.AcceptedAfterClose | sdks/python/src/crashlens/_transport.py:62-65 | once close has begun only submitters already past the closed test are accepted |
| PythonTransport.CloseSteps | sdks/python/src/crashlens/_transport.py:96-107 | the marker goes behind what is queued; without room the head makes way for it |
| PythonTransport.CloseSendsQueued | sdks/python/src/crashlens/_transport.py:96-116 | with room for the marker the worker can send every queued event, in order, and stops |
| PythonTransport.StepKeepsInv | sdks/python/src/crashlens/_transport.py:62-125 | every step of every thread keeps the ledger, the count, the waiters and the bound |
| PythonTransport.RunKeepsInv | sdks/python/src/crashlens/_transport.py:62-125 | so every interleaving does |
| PythonTransport.PendingIsOutstanding | sdks/python/src/crashlens/_transport.py:62-125 | with the lock free the counter is never negative, and is queued plus in-flight events exactly when close has not drained a queue that held one, so always before close gets that far |
| PythonTransport.SentInOrder | sdks/python/src/crashlens/_transport.py:112-125 | events leave the sender in the order accepted, and are the first ones accepted unless close drained one |
| PythonTransport.FlushMeansSent | sdks/python/src/crashlens/_transport.py:79-88 | a flush succeeds exactly when nothing is outstanding and close has drained no event, and then every event accepted by then has left the sender |
| PythonTransport.WaiterIsNotified | sdks/python/src/crashlens/_transport.py:80-125 | no lost wake-up: while someone waits the count is positive or the worker is about to notify, and at zero the notification reaches every waiter |
| PythonTransport.ZeroWakesEveryone | sdks/python/src/crashlens/_transport.py:121-125 | once the worker has brought the count to zero no interleaving raises it before the notification, which leaves no one waiting |
| PythonTransport.WorkerReleasesFlushers | sdks/python/src/crashlens/_transport.py:112-125 | before close the worker's own steps always empty the queue, bring the count to zero and leave no one waiting |
| PythonTransport.SignalWithRoom | sdks/python/src/crashlens/_transport.py:95-97 | when the queue has room after the flush of close, no continuation discards an event and the count stays right |
| PythonTransport.DrainLosesCountIff | sdks/python/src/crashlens/_transport.py:98-103 | otherwise, in every continuation, an event is discarded and the count wrong exactly when the queue is not empty at the drain |
| PythonTransport.NoFlushAfterDiscard | sdks/python/src/crashlens/_transport.py:97-107 | once close has discarded an event no later flush succeeds |
| PythonTransport.SignalReachesWorker | sdks/python/src/crashlens/_transport.py:90-97 | with room at the first attempt the shutdown marker is queued or has stopped the worker ever after |
| PythonTransport.ResignalReachesWorkerIff | sdks/python/src/crashlens/_transport.py:98-107 | at the second attempt that holds exactly when there is room again; otherwise the worker never stops |
| PythonTransport.MarkedWorkerStops | sdks/python/src/crashlens/_transport.py:112-116 | a queued marker stops the worker by its own steps |
| PythonTransport.MarkerLost | sdks/python/src/crashlens/_transport.py:98-107 | a run in which close queues no marker at all |
| PythonTransport.ForcedDrainLosesCount | sdks/python/src/crashlens/_transport.py:97-107 | a run, its flush timing out, in which close leaves the counter above the outstanding events |
| NodeTransport.Transport.EnqueueBody | sdks/node/src/transport.ts:89-103 | the push-then-shift loop sheds the oldest bodies and leaves the queue within its bound |
| NodeTransport.Transport.ContinueDrain | sdks/node/src/transport.ts:109-110 | the loop test and the hand-over of the head |
| NodeTransport.Transport.StartDrain | sdks/node/src/transport.ts:105-110 | a second drain does nothing while one is sending |
| NodeTransport.Transport.SendEvent | sdks/node/src/transport.ts:57-67 | one send, nothing after close |
| NodeTransport.Transport.TransmitResolved | sdks/node/src/transport.ts:111-118 | the shift after a returned transmit and the next turn of the loop |
| NodeTransport.Transport.TransmitRejected | sdks/node/src/transport.ts:114-118 | a throwing transmit ends the drain and leaves the queue |
| NodeTransport.Transport.CloseTransport | sdks/node/src/transport.ts:79-82 | close empties the queue |
| NodeTransport.BoundOfRun | sdks/node/src/transport.ts:46-56 | the bound over any run is the one asked for, at least one |
| NodeTransport.SendEnqueues | sdks/node/src/transport.ts:57-67 | a sent body is the newest queued, the oldest goes exactly when the queue was full, and an idle transport hands over its head |
| NodeTransport.NothingAfterClose | sdks/node/src/transport.ts:79-82 | after close the queue stays empty and nothing is handed over |
| NodeTransport.StepKeepsInv | sdks/node/src/transport.ts:57-119 | every step keeps order, bound, count and the account of every body |
| NodeTransport.RunKeepsInv | sdks/node/src/transport.ts:57-119 | so every interleaving does |
| NodeTransport.OrderAndConservation | sdks/node/src/transport.ts:57-119 | bodies are handed over in order, none twice while no transmit has thrown; the queue keeps its bound; accepted is completed plus overflowed plus queued until close |
| NodeTransport.RepeatIff | sdks/node/src/transport.ts:109-118 | after a transmit throws, the next hand-over repeats a body exactly when the thrown one has not overflowed and is not pushed off by the call that resumes; the body repeated is the thrown one |
| NodeTransport.IdleIffRejected | sdks/node/src/transport.ts:105-118 | before close the drain is idle over a queue exactly when the last step was a throw |
| NodeTransport.AscendingIff | sdks/node/src/transport.ts:57-119 | over any run, bodies are handed over strictly in order exactly when no thrown body is resumed at the head of the queue |
| NodeTransport.EveryBodyAccounted | sdks/node/src/transport.ts:89-119 | every accepted body is queued, was handed over, overflowed, or was taken off unsent in place of an overflowed one |
| NodeTransport.EmptyQueueMeansHandled | sdks/node/src/transport.ts:70-77 | when flush returns true before close, nothing is in flight and every accepted body was handed over, overflowed, or taken off unsent |
| NodeTransport.ShiftedBodySentIff | sdks/node/src/transport.ts:111-112 | the body shifted off after a transmit has been, or ever will be, sent exactly when the body in flight had not overflowed |
| NodeTransport.OverflowInFlightLosesNext | sdks/node/src/transport.ts:89-112 | a run with one slot in which the second event is never sent |
| NodeTransport.RejectionRepeats | sdks/node/src/transport.ts:109-118 | a run in which one body is handed to transmit twice, its first transmit having thrown |

## Left out

- ExactlyOnce: holds for runs without retention; deleting an event row lets a resend of it in again.
- DirnameRoundTrip: strings are sequences of Unicode scalar values; a lone surrogate, on which encoding raises, is not modelled.
- RateBound: seconds and tokens are exact; the rounding of the script's text round trip and a clock that runs backwards between calls are not modelled, and one call asks for one token, as the only caller does.
- LockoutBound: attempts are atomic and one after another; two requests reading the same counter at once are not modelled.
- FlushMeansSent: one closing thread; a failed send counts as having left the sender, as in the code.
- GroupKeyOfChain: speaks of the signature that is hashed; JSON serialisation and SHA-256 are not modelled, and the signature of events without an exception takes its placeholder substitution as a parameter.
- LatestIsUnique: versions first seen at the same instant are ordered by code point, where the database uses its collation.
- Transactions are one atomic step each; the concurrent-duplicate race the worker accepts and lost updates between transactions are not modelled.
- Title derivation, environment and level validation, the dropping of events that lack required keys, and timestamp parsing: easy members in front of the upsert.
- Alert delivery after commit: the log records what is dispatched, not whether the queue takes it.
- Assignment, comments, lists and audit titles of issues: they touch neither status nor counters.
- The map store is a function from file names to parsed maps: the file system, the parse cache and upload are not modelled, nor is pruning of old source maps.
- The protocol also allows at most five context lines a side; normalisation does not enforce that, and the caps here are those it applies.
- JSON numbers that are not finite, and objects with a repeated key on input.
- Partition table names and their pattern; a server clock outside UTC; retention settings changed while a run is under way.
- The HTTP side of the SDKs: gzip, retries, Retry-After delays, deadlines of `flush` beyond their having expired or not, and events that cannot be serialised.
- The browser SDK's transport, whose flush swaps the queue under a send in flight.
- Routes, dashboard, job queue, mail and webhook delivery, row-level security, migrations other than the two partition functions, pagination and DSN parsing: plumbing, or enforced by the database.
