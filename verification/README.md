# arp-remotion-renderer in Dafny

A model of the logic at the heart of the ARP Remotion render service and of
the long-form video composition it renders.

- **Caption synthesizer** (`Srt`, `srt.dfy`):
  - `timeToSec`, read as the leftmost `(\d+):(\d+):(\d+),(\d+)` match;
  - `parseSrt`: carriage returns removed, trimmed, split on runs of blank lines, a block kept only when it has three non-empty lines, a `-->` time line and some text;
  - `segmentsToWordCues`, which spreads a segment's duration evenly over its words.
- **String helpers** (`Text`, `text.dfy`): the JavaScript behaviour those functions rely on, stated over explicit character classes.
  - `trim` and `split(/\s+/).filter(Boolean)`;
  - `replace(/\s+/g, " ")`, `split`/`join` and `indexOf`;
  - `endsWith`, `split("/").pop()` and `||` on strings.
- **Job ledger** (`Jobs`, `jobs.dfy`):
  - `jobKey`, `createJob`, `updateJob` and `getJob`, over an object store modelled as a map from keys to blobs;
  - a blob is a job document or bytes that do not parse as one; JSON that parses but is not a job record is not modelled.
- **Bundle cache** (`BundleCache`, `bundle_cache.dfy`):
  - `getBundleLocation` as a sequential state machine over the cached location, the in-flight promise and every build started;
  - events are a call, a build succeeding and a build failing;
  - `findRepoRoot` as a bounded walk up an abstract directory tree.
- **Request schema** (`Schema`, `schema.dfy`): `RenderRequestSchema.safeParse` as a validity predicate over the seven properties it looks at.
- **Request handling** (`Service`, `service.dfy`):
  - the upload route's checks, fallbacks and manifest signing decision;
  - the download route's file name;
  - the render route: the schema, the ordered existence check of its inputs, the queued job and the 202 reply.
- **Timeline** (`Timeline`, `timeline.dfy`):
  - `frames` and `withOffsets`;
  - the active scene and the frame offset inside it;
  - the bullets, headline and side panel shown;
  - the call-to-action overlay.
- **Word-by-word captions** (`Captions`, `captions.dfy`): the active cue, the window of up to three cues on either side, the highlight and the progress through the active cue.

Modelling choices:

- Times and frame rates are exact `real`s. `Math.round(x)` is `floor(x + 0.5)`. `Number("0042")` is the decimal value of the digit run.
- JavaScript's `\s` is the explicit set of ECMAScript white-space and line-terminator characters. `\d` is `'0'..'9'`.
- These are parameters:
  - the clock (`new Date().toISOString()`);
  - the fresh job id (`crypto.randomUUID()`);
  - the outcome of the render;
  - the set of keys present in the object store.
- Serialising a job record to JSON and parsing it back is taken to be lossless. The request a job carries is its run id plus its other string properties by name.

Where the code and the documentation of the service disagree, the model follows the code:

- A failed bundle build is never retried. The rejected promise stays in `inflight` and every later call receives it (`BundleCache.FailureIsFinal`).
- A request without `captionsKey` passes the schema, yet the render route always refuses it (`Service.AbsentCaptionsRefused`).
- The background updates of the render route never land. `updateJob` is called there without a run id, so the job stays `queued` (`Service.AcceptedJobStaysQueued`).

## Model

| member | source | states |
|---|---|---|
| Srt.FirstMatchFromSpec | apps/render-service/src/srt.ts:5 | the search reports the leftmost position where the time-stamp pattern matches, and reports none only when no position matches |
| Srt.TimeToSecSpec | apps/render-service/src/srt.ts:4-9 | `timeToSec` is 0 when the pattern matches nowhere, and otherwise hh·3600 + mm·60 + ss + ms/1000 of the leftmost match |
| Srt.MatchAtSound | apps/render-service/src/srt.ts:5-7 | every match is four non-empty digit runs separated by `:`, `:`, `,` followed by a non-digit or the end, and its numbers are those runs' decimal values |
| Srt.MatchAtComplete | apps/render-service/src/srt.ts:5-7 | conversely, any four digit runs written as `A:B:C,D` and followed by a non-digit or the end match with exactly those numbers |
| Srt.DigitGroupsAreGroups | apps/render-service/src/srt.ts:5 | every group a greedy `(\d+)` match captures is a non-empty run of digits |
| Srt.DigitGroupsSound | apps/render-service/src/srt.ts:5 | a match spells its groups with the separators between them, followed by a non-digit or nothing |
| Srt.DigitGroupsComplete | apps/render-service/src/srt.ts:5 | digit groups written with non-digit separators and followed by a non-digit or nothing match with exactly those groups |
| Srt.RemoveCharSpec | apps/render-service/src/srt.ts:12 | removing `\r` leaves no `\r`, and changes nothing in a text without one |
| Srt.RemoveCharAppend | apps/render-service/src/srt.ts:12 | removing a character distributes over concatenation |
| Srt.SplitBlocksPieces | apps/render-service/src/srt.ts:12 | no block produced by `split(/\n\n+/)` contains a blank line |
| Srt.SplitBlocksKeepsText | apps/render-service/src/srt.ts:12 | the blocks together hold all of the text except newlines |
| Srt.SplitBlocksRoundTrip | apps/render-service/src/srt.ts:12 | writing the matched separators back between the blocks gives the input, and every separator is two or more newlines |
| Srt.SplitBlocksMaximal | apps/render-service/src/srt.ts:12 | each separator is a maximal run: no block before one ends with a newline, no block after one starts with a newline, and no block between two is empty |
| Srt.ParseBlock | apps/render-service/src/srt.ts:15-22 | a block yields a segment iff it has at least three non-empty lines, its second line splits into exactly two parts on `-->` and its text has a word; the segment's times are `timeToSec` of the trimmed parts, and its text is the words joined by single spaces, non-empty and normalized |
| Srt.ParseBlocksTexts | apps/render-service/src/srt.ts:21-22 | every parsed segment has non-empty text with single spaces and no whitespace at either end |
| Srt.ParseBlocksAppend | apps/render-service/src/srt.ts:14-24 | parsing a list of blocks is parsing each part and concatenating: a skipped block never stops later blocks and segments keep block order |
| Srt.ParseBlocksBlockwise | apps/render-service/src/srt.ts:14-24 | the parse is the concatenation, block by block, of the zero or one segment each block yields |
| Srt.ParseSrtTexts | apps/render-service/src/srt.ts:11-25 | every segment of a parsed file has non-empty, single-spaced, trimmed text |
| Srt.ParseSrtBlockwise | apps/render-service/src/srt.ts:11-25 | a parsed file is, in order, the segments yielded by the blocks of the file with carriage returns removed, trimmed and split at blank lines |
| Srt.ParseSrtIgnoresCR | apps/render-service/src/srt.ts:12 | a file with CRLF line ends parses exactly as the same file with LF ones |
| Srt.PerWord | apps/render-service/src/srt.ts:32-33 | each word's share is positive; the shares cover exactly the segment when it is at least 0.08 s long, and exactly 0.08 s when it is shorter |
| Srt.SegmentCuesSpec | apps/render-service/src/srt.ts:30-38 | a segment gives one cue per word, in order; cue i starts at start + i·per, each cue but the last ends where the next starts, and the last ends at the segment's end |
| Srt.SpreadTile | apps/render-service/src/srt.ts:34-37 | cues spread from a start in steps of `per` start at start + i·per, end back to back, and the last ends at the given end |
| Srt.SegmentCuesIncreasing | apps/render-service/src/srt.ts:35 | within a segment the cue starts strictly increase |
| Srt.SegmentCuesInside | apps/render-service/src/srt.ts:32-36 | for a segment at least 0.08 s long every cue lies inside the segment and ends no earlier than it starts |
| Srt.ShortSegmentLastCue | apps/render-service/src/srt.ts:32-36 | for a zero-length segment with two words, the last cue starts at start + 0.04 but ends at the segment's end, before its own start |
| Srt.TwoWordCues | apps/render-service/src/srt.ts:27-41 | two words over the interval from 1 to 3 seconds give the cues [1, 2) and [2, 3) |
| Srt.WordCuesWords | apps/render-service/src/srt.ts:27-41 | the cues' words are every segment's words in segment order, so the number of cues equals the total word count and a wordless segment contributes none |
| Srt.WordCuesAppend | apps/render-service/src/srt.ts:29-39 | the cues of a list of segments are the cues of each part, concatenated |
| Srt.SegmentsToWordCues | apps/render-service/src/srt.ts:27-41 | the nested loop emits exactly the reference cues: each segment's cues, in segment order |
| Srt.EmitSegmentCues | apps/render-service/src/srt.ts:30-38 | one iteration of the outer loop emits exactly the segment's cues, skipping a segment without words |
| Text.TrimSpec | apps/render-service/src/srt.ts:12 | `trim` gives the empty string iff the text is all whitespace, and otherwise neither end of the result is whitespace |
| Text.TrimParts | apps/render-service/src/srt.ts:12 | the text is its trimmed form with only whitespace before and after it |
| Text.CollapseSingleSpaced | apps/render-service/src/srt.ts:21 | after `replace(/\s+/g, " ")` every whitespace character is a single space, never two in a row |
| Text.NormalizeIsJoinedWords | apps/render-service/src/srt.ts:21 | collapsing and trimming a text gives its words joined by single spaces, and the result is normalized |
| Text.WordsAreWords | apps/render-service/src/srt.ts:30 | every word of `split(/\s+/).filter(Boolean)` is non-empty and holds no whitespace |
| Text.WordsCollapse | apps/render-service/src/srt.ts:21 | collapsing whitespace runs never changes the words of a text |
| Text.WordsTrim | apps/render-service/src/srt.ts:21 | trimming never changes the words of a text |
| Text.WordsAppend | apps/render-service/src/srt.ts:30 | words never straddle a whitespace boundary: the words of `x + y` are those of `x` then those of `y` |
| Text.WordsOfJoin | apps/render-service/src/srt.ts:30 | splitting a single-space join of words back into words recovers them |
| Text.WordsOfSpaceJoin | apps/render-service/src/srt.ts:21 | the words of lines joined by a space are the lines' words in order |
| Text.SplitOnPieces | apps/render-service/src/srt.ts:17 | no piece of `split(sep)` contains the separator |
| Text.SplitJoin | apps/render-service/src/srt.ts:17 | joining the pieces of `split(sep)` with `sep` gives the text back |
| Text.IndexFromSpec | apps/render-service/src/srt.ts:12 | the search reports an occurrence, and no earlier position holds one |
| Text.LastSegmentSpec | apps/render-service/src/index.ts:72 | `split("/").pop()` holds no `/`, is a suffix of the key, and what precedes it is empty or ends in `/` |
| Jobs.JobKeyShape | apps/render-service/src/jobs.ts:19-21 | the key is `runs/`, the run id, `/jobs/`, the job id and `.json`, in that order |
| Jobs.JobKeyInjective | apps/render-service/src/jobs.ts:19-21 | for run ids without `/`, equal keys mean equal run ids and equal job ids |
| Jobs.JobKeyCollision | apps/render-service/src/jobs.ts:19-21 | a run id holding `/jobs/` lets two different jobs share a key |
| Jobs.GetJob | apps/render-service/src/jobs.ts:80-86 | `getJob` gives a record iff a job document is stored at the key, and nothing (never an error) when the object is absent or unparsable |
| Jobs.CreateJob | apps/render-service/src/jobs.ts:23-45 | `createJob` fails without writing iff the trimmed run id is empty; otherwise it writes and returns a `queued` record with the trimmed run id, equal creation and update times and the request unchanged, under `jobKey(trimmedRunId, id)` |
| Jobs.CreateJobBlankRunId | apps/render-service/src/jobs.ts:25-26 | a run id of whitespace is refused and nothing is written |
| Jobs.CreateThenGet | apps/render-service/src/jobs.ts:23-45 | a created job reads back under the trimmed run id as the record `createJob` returned |
| Jobs.InferRunIdSpec | apps/render-service/src/jobs.ts:49-54 | the run id is the first truthy candidate among the argument, `patch.runId` and `patch.request.runId`, and there is none iff no candidate is truthy |
| Jobs.UpdateJob | apps/render-service/src/jobs.ts:47-78 | without a run id `updateJob` fails before any read and writes nothing; without a stored job it fails with "not found" and writes nothing; otherwise it writes the merged record under the inferred run id's key |
| Jobs.UpdateJobFrame | apps/render-service/src/jobs.ts:70-77 | an update leaves every key other than the job's key under the inferred run id exactly as it was |
| Jobs.UpdateThenGet | apps/render-service/src/jobs.ts:59-77 | a successful update reads back as the record it returned |
| Jobs.MergeIdempotent | apps/render-service/src/jobs.ts:59-68 | merging the same patch twice gives the record of merging it once, apart from the update time |
| Jobs.MergeEmpty | apps/render-service/src/jobs.ts:59-68 | an empty patch only refreshes `updatedAt` |
| Jobs.StatusOnlyPatchFails | apps/render-service/src/jobs.ts:49-54 | a `{status, result, error}` patch without a run id always fails with "runId is required" and writes nothing |
| Jobs.TerminalStatusOverwritten | apps/render-service/src/jobs.ts:59-68 | nothing guards the prior status: a `done` job can be sent back to `queued` |
| Jobs.Lifecycle | apps/render-service/src/jobs.ts:23-86 | creating a job and updating it to `running` and then `done` with the run id passed leaves a record that keeps the creation time and request and carries the result |
| BundleCache.GetBundleLocation | apps/render-service/src/bundleCache.ts:27-44 | a non-empty cached location is returned with the state unchanged; with a build in flight the caller awaits that build and nothing changes; otherwise exactly one new build starts and is recorded as in flight |
| BundleCache.StepValid | apps/render-service/src/bundleCache.ts:27-44 | every event keeps at most one build in flight, never one beside a cached location, and never changes how a settled build settled |
| BundleCache.RunValid | apps/render-service/src/bundleCache.ts:27-44 | every run of events from a valid state ends in a valid state |
| BundleCache.AtMostOnePending | apps/render-service/src/bundleCache.ts:29-31 | in a valid state at most one build is pending |
| BundleCache.SucceedCaches | apps/render-service/src/bundleCache.ts:37-38 | a successful build caches its location and clears the in-flight marker |
| BundleCache.CachedIsFinal | apps/render-service/src/bundleCache.ts:28-37 | once a non-empty location is cached, no event replaces it or starts a build |
| BundleCache.CachedRepliesImmediately | apps/render-service/src/bundleCache.ts:28 | once a non-empty location is cached, every call receives it at once |
| BundleCache.FailPoisons | apps/render-service/src/bundleCache.ts:31-41 | a failed build leaves its rejected promise in flight and nothing cached |
| BundleCache.FailureIsFinal | apps/render-service/src/bundleCache.ts:29-41 | after a failure the state never changes and every call awaits the same rejected build: it is never retried |
| BundleCache.CallsShareOneBuild | apps/render-service/src/bundleCache.ts:29-43 | any number of calls on a fresh module start exactly one build and all await it |
| BundleCache.WaitingCalls | apps/render-service/src/bundleCache.ts:29 | calls while a build is in flight change nothing and all await that build |
| BundleCache.EmptyLocationRebuilds | apps/render-service/src/bundleCache.ts:28 | an empty location is cached but is falsy, so the next call starts a second build |
| BundleCache.InspectedSpec | apps/render-service/src/bundleCache.ts:8-21 | the directories inspected start at the start directory, each is followed by its parent, and a walk shorter than the bound ends at the file-system root |
| BundleCache.FindRepoRootSpec | apps/render-service/src/bundleCache.ts:8-21 | `findRepoRoot` inspects at most 12 directories and returns the first one holding `package.json` and `packages` or `apps`, or the start directory when none does |
| BundleCache.FindRepoRootAtStart | apps/render-service/src/bundleCache.ts:14 | a start directory that is itself a repository root is returned as is |
| Schema.SafeParse | apps/render-service/src/schema.ts:3-11 | the parse succeeds iff runId, composition, audioKey, propsKey, outputKey and logKey are non-empty strings and captionsKey is absent or a string; a parsed request has those six non-empty |
| Schema.ParseOfBody | apps/render-service/src/schema.ts:3-11 | serialising a well-formed request and parsing it gives the request back |
| Schema.BodyOfParse | apps/render-service/src/schema.ts:3-11 | a body that parses is exactly the body of the request it parses to |
| Schema.BlankRunIdConforms | apps/render-service/src/schema.ts:4 | the schema checks length only, so a run id of a single space passes |
| Schema.EmptyCaptionsKey | apps/render-service/src/schema.ts:8 | an empty `captionsKey` is accepted as is, and a non-string one fails the parse |
| Service.PlanUpload | apps/render-service/src/index.ts:38-56 | no file gives "No file provided" whatever the key; a file with a falsy key gives "Missing 'key'"; an accepted upload writes to the given key with the given file size and a non-empty content type |
| Service.UploadFallbacks | apps/render-service/src/index.ts:45-50 | the bucket is the form's when truthy, else the configured one; the content type is the form's, else the file's mimetype, else `application/octet-stream`; the upload is signed iff the key's last path segment is `manifest.json` |
| Service.FirstTruthySpec | apps/render-service/src/index.ts:45-46 | a chain of JavaScript `or` operators ending in a fallback yields the first truthy candidate, or the fallback when none is truthy |
| Service.ShouldSignIsManifestName | apps/render-service/src/index.ts:50 | "ends with `/manifest.json` or equals `manifest.json`" holds iff the key's last path segment is `manifest.json` |
| Service.NamedFile | apps/render-service/src/index.ts:50 | for any name without `/`, "ends with `/` and the name, or equals it" holds iff the last path segment is the name |
| Service.PlanDownload | apps/render-service/src/index.ts:63-72 | a falsy key gives "Missing 'key'", and otherwise the download reads the given key |
| Service.DownloadFilename | apps/render-service/src/index.ts:72 | the offered file name holds no `/`, ends the key right after a `/` or at its start, and is the whole key when the key has no `/` |
| Service.CheckInputs | apps/render-service/src/index.ts:97-104 | the loop collects the complaints and the store lookups of the keys in order: an empty or absent key gives "`<name> (empty)`" and no lookup, an unstored key gives "`<name>: <key>`" |
| Service.MissingEmpty | apps/render-service/src/index.ts:97-108 | nothing is missing iff every required key is non-empty and stored |
| Service.LookupsNonEmpty | apps/render-service/src/index.ts:99-101 | every store lookup is of a non-empty key, and there are no more lookups than keys |
| Service.RouteInputsPresent | apps/render-service/src/index.ts:91-108 | the render route's inputs pass iff audioKey, propsKey and captionsKey are all non-empty and stored |
| Service.AbsentCaptionsRefused | apps/render-service/src/index.ts:94-99 | a request whose `captionsKey` is absent or empty is always refused, with "captionsKey (empty)" as the last complaint |
| Service.RenderLong | apps/render-service/src/index.ts:83-126 | a body failing the schema gets 400 with no lookup; missing inputs get 400 with the complaints and no job; otherwise the reply is 202 `queued` with the job id and the request's run id |
| Service.AcceptedJobStaysQueued | apps/render-service/src/index.ts:110-122 | after an accepted request the ledger is what `createJob` left, whatever the render does, so the job stays `queued` |
| Service.BlankRunIdAcceptedButNotRecorded | apps/render-service/src/index.ts:84-125 | a whitespace run id gets a 202 with a job id, yet no job is recorded |
| Timeline.RoundNearest | packages/remotion-video/src/compositions/ARPLong.tsx:14 | `Math.round(x)` is within half a unit of x, ties going up |
| Timeline.Frames | packages/remotion-video/src/compositions/ARPLong.tsx:14 | a scene always gets at least one frame |
| Timeline.FramesSpec | packages/remotion-video/src/compositions/ARPLong.tsx:14 | the frame count is the integer nearest sec·fps whenever that is at least 1, and 1 when sec·fps is below one half |
| Timeline.LayoutContiguous | packages/remotion-video/src/compositions/ARPLong.tsx:16-24 | the layout starts at frame 0, each scene starts where the one before ends, and it ends after all the scenes' frames |
| Timeline.WithOffsets | packages/remotion-video/src/compositions/ARPLong.tsx:16-24 | the loop keeps every scene whole and in order, gives each its frame count, and lays them end to end from frame 0 |
| Timeline.ActiveScene | packages/remotion-video/src/compositions/ARPLong.tsx:31 | the active scene, when there is one, covers the frame |
| Timeline.ActiveSceneFirst | packages/remotion-video/src/compositions/ARPLong.tsx:31 | no scene before the active one covers the frame, and none covers it when there is no active scene |
| Timeline.Disjoint | packages/remotion-video/src/compositions/ARPLong.tsx:17-22 | on a contiguous timeline at most one scene covers a frame |
| Timeline.ActiveWithinTotal | packages/remotion-video/src/compositions/ARPLong.tsx:31 | on a contiguous timeline a scene is active iff 0 ≤ frame < total length |
| Timeline.LocalFrame | packages/remotion-video/src/compositions/ARPLong.tsx:32 | the local frame lies in [0, durationFrames) of the active scene, and is 0 without one |
| Timeline.ShownBullets | packages/remotion-video/src/compositions/ARPLong.tsx:56-58 | at most 5 bullets are shown: the first ones, all of them when there are at most 5, and none without a bullet list |
| Timeline.Headline | packages/remotion-video/src/compositions/ARPLong.tsx:53 | the headline is the scene's when it is non-empty, and the title otherwise |
| Timeline.SidePanel | packages/remotion-video/src/compositions/ARPLong.tsx:67-69 | the app-window mock is drawn iff the scene asks for one, with the mock's title and lines; otherwise a glass panel titled by the mock's title when non-empty or else the brand, with the mock's lines, or titled by the brand with no lines when there is no mock |
| Timeline.CtaWindow | packages/remotion-video/src/compositions/ARPLong.tsx:82 | with a whole frame rate the overlay shows iff frame ≥ durationInFrames − 3·fps + 1 |
| Timeline.CtaLines | packages/remotion-video/src/compositions/ARPLong.tsx:84-89 | each overlay line is the given text when truthy, and otherwise the fixed fallback "Get the Free 2026 AI Toolkit" or "Subscribe for weekly ARP workflows" |
| Captions.ActiveIndexLeast | packages/remotion-video/src/ui/CaptionsWordByWord.tsx:10 | the active index is the least index of a cue being spoken at t = frame/fps, and exists whenever one is |
| Captions.Render | packages/remotion-video/src/ui/CaptionsWordByWord.tsx:8-18 | nothing is drawn iff no cue is being spoken; otherwise the strip shows a contiguous slice of the cues, in order, holding the active one |
| Captions.WindowBounds | packages/remotion-video/src/ui/CaptionsWordByWord.tsx:13-15 | the window is the slice [max(0, ai−3), min(len, ai+4)), 1 to 7 cues long, with the active cue at offset ai − start |
| Captions.OneMarked | packages/remotion-video/src/ui/CaptionsWordByWord.tsx:25 | exactly one shown cue is highlighted, the one at offset ai − start |
| Captions.ShareInUnit | packages/remotion-video/src/ui/CaptionsWordByWord.tsx:17-18 | the denominator is at least 0.001, and the spoken share lies in [0, 1) |
| Captions.ProgressInUnit | packages/remotion-video/src/ui/CaptionsWordByWord.tsx:17-18 | the progress through the active cue lies in [0, 1), even for a cue shorter than the clamp |

## Left out

- HTTP plumbing in `index.ts`: Express routing, CORS, request logging, multer limits, the health and root routes, the 405 route and the process handlers. They are framework behaviour, not logic.
- The object store calls themselves (`uploadBuffer`, `downloadToBuffer`, `signedGetUrl`). Their failures, which become 500 replies, are left out too. The upload and download routes are modelled up to the store call, as plans.
- `existsKey` is imported by `index.ts` but is not defined in the shown `r2.ts`. It is modelled as membership in the set of stored keys.
- The job ledger and the object-store contents checked by the render route live in one bucket, but they are modelled as two separate stores.
- Scheduling: `createJob` is not awaited at `index.ts:111`, and the background task at `index.ts:114-122` starts `renderLong` without waiting. The model applies the writes in program order and looks at the ledger once they have settled. Interleavings are not modelled.
- The updates of `index.ts:116-120` pass no run id, so they always fail. The model shows this rather than repairing it: `Service.AcceptedJobStaysQueued`, `Jobs.StatusOnlyPatchFails`.
- The status route (`index.ts:128-132`) is not modelled. It calls `getJob` with one argument and tests the returned promise, which is always truthy, so it answers 200 with a promise for every job id.
- `renderLong.ts` is not modelled: temporary files, bundling, rendering, uploads. Its call `parseSrt` → `segmentsToWordCues` is covered by `Srt`. It calls `bundle` directly, so the bundle cache is never used on that path. No render gate or queue exists, and none is modelled.
- `r2.ts` and `config.ts` are left out. They are a client wrapper and environment parsing.
- Remotion behaviour is left out: `spring`, `interpolate`, the opacity and offset curves, `Math.sin` motion and all styling. These are floating-point library functions. Presentational components are left out too (`AppWindow`, `GlassPanel`, `ARPShort`, `Root`).
- IEEE floating point: every time and frame rate is an exact real.
- Jobs: patch fields set to `undefined` explicitly are not distinguished from absent ones. A JSON body that is not an object, or a schema property that is not a string, is only modelled as a non-string field.
- Captions.Render: requires a positive frame rate. Remotion rejects a composition whose fps is not positive, so every call site meets it.
- Jobs.GetJob: JSON that parses but is not a job record (`{}` or `42` uploaded to a job key) is not modelled. `getJob` casts it without a check and returns it, and `updateJob` merges over it. The model's store holds only job documents and unparsable bytes, so it answers nothing and NotFound there.
- Timeline.CtaWindow: stated for whole frame rates only, which is what compositions use. `ShowsCta` itself is defined for any real rate.
- Srt.SegmentCuesInside: only promises that cues lie inside a segment at least 0.08 s long. For a shorter segment the last cue can end before it starts (`Srt.ShortSegmentLastCue`).
- BundleCache: the console log and the webpack override are left out. The bundler is represented by the success and failure events.
