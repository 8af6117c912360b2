# fastcut utilities, modelled in Dafny

A model of the browser-side helpers of the fastcut video editor
(`src/utils/`), with proofs of what they promise:

- **thumbnail generation** (`thumbnailGenerator.js`) — how an upload is
  classified (image, video, unsupported), the effective duration and the
  number of thumbnails, the evenly spaced sample times, the capture loop
  with its backup frame, and the `seekTo` settle machine;
- **project auto-save** (`projectManager.js`) — saving the editor's four
  lists and its settings under `auto_save_v1`, loading them back with
  freshly created object URLs, and clearing the project;
- **SubRip subtitles** (`srtParser.js`) — `HH:MM:SS,mmm` to seconds, and
  cutting a file into blocks and cues, including the inputs that make the
  code throw;
- **GIF decoding** (`gifHelper.js`) — frame durations and the running start
  times;
- **media duration probing** (`mediaHelpers.js`) — the race between the
  5-second timer, the metadata, the test seek and the error handler;
- **the landing-page file bridge** (`fileBridge.js`) — a file handed over
  once through an object store and deleted when it is read.

The JavaScript the code relies on is modelled explicitly in two support
modules. `JsNumbers` covers NaN, ±Infinity, truthiness and the arithmetic.
`JsStrings` covers `split`, `join`, `trim`, `toLowerCase`, `startsWith` and
`parseInt(_, 10)`.

The browser is replaced by parameters:

- the metadata duration, and every frame capture, as an oracle
  `grab(attempt, time)`;
- the images of the GIF's selected track;
- the events a media element and its timer deliver, in order;
- IndexedDB, as a map from keys to records;
- `URL.createObjectURL`, as a counter.

Modules, one per file:

- `Wrappers` (`wrappers.dfy`): `Option` and `Result`.
- `JsNumbers`, `JsStrings`: the JavaScript semantics above.
- `SrtParser`, `ThumbnailGenerator`, `GifHelper`, `MediaHelpers`,
  `ProjectManager`, `FileBridge`: one per source file.

Operations that loop or change state in the source are methods:

- `SrtParser.ParseBlocks`, `ThumbnailGenerator.GenerateThumbnails` and
  `GifHelper.AccumulateFrames` are loops, each proved against a
  specification function.
- `ProjectManager.Project`, `FileBridge.BridgeStore` and
  `ThumbnailGenerator.PendingSeek` are classes whose methods update fields.

Two behaviours of the code are worth knowing:

- `generateThumbnails` can return fewer thumbnails than the sample count. A
  failed sample with no backup frame pushes nothing.
- A malformed SRT time line throws, and the throw ends the whole parse. It
  is modelled as a `Failure` result.

## Model

| member | source | states |
|---|---|---|
| JsNumbers.Add | src/utils/srtParser.js:16 | finite operands add; a NaN operand gives NaN |
| JsNumbers.Sub | src/utils/srtParser.js:52 | `end - start` is the difference of finite times and NaN when either is NaN |
| JsNumbers.Times | src/utils/srtParser.js:16 | scaling a finite value scales it; NaN stays NaN and only NaN gives NaN |
| JsNumbers.Over | src/utils/srtParser.js:16 | dividing a finite value by a positive constant divides it; NaN stays NaN and only NaN gives NaN |
| JsNumbers.Ceil | src/utils/thumbnailGenerator.js:65 | `Math.ceil`: the least integer not below x, `x <= n < x + 1` |
| JsStrings.ToLower | src/utils/thumbnailGenerator.js:32 | same length, every character lower-cased |
| JsStrings.Split | src/utils/srtParser.js:8 | `split` always yields at least one piece |
| JsStrings.SplitLeftmost | src/utils/srtParser.js:25 | the cuts are leftmost: no piece but the last, followed by all but the last character of the separator, includes the separator; with `JoinSplit` and `SplitPiecesAvoid` this fixes every piece |
| JsStrings.JoinSplit | src/utils/srtParser.js:25 | joining the pieces of a split with the same separator gives back the string |
| JsStrings.SplitPiecesAvoid | src/utils/srtParser.js:25 | no piece of a split contains the separator, for any non-empty separator: the string is cut at every occurrence |
| JsStrings.SplitPiecesAvoidChar | src/utils/srtParser.js:30 | no piece of a split at a one-character separator contains that character |
| JsStrings.Trim | src/utils/srtParser.js:42-43 | the result is the input with its leading whitespace removed and then its trailing whitespace removed: every removed character is whitespace, and the result neither starts nor ends with whitespace |
| JsStrings.TrimEmptyIffBlank | src/utils/srtParser.js:48 | `trim()` is empty exactly when every character is whitespace |
| JsStrings.ParseInt | src/utils/srtParser.js:11-14 | `parseInt(_, 10)` yields NaN or a finite value that is an integer, under the exact arithmetic listed under Left out |
| JsStrings.ParseIntSkipsWhitespace | src/utils/srtParser.js:11-14 | leading whitespace is skipped before the sign and digits are read |
| JsStrings.ParseIntOfDigits | src/utils/srtParser.js:11-14 | a non-empty run of decimal digits parses to its decimal value |
| JsStrings.ParseIntOfDigitsThen | src/utils/srtParser.js:11-14 | digits followed by anything that does not start with a digit parse to the digits' value: the trailing text is ignored |
| JsStrings.ParseIntOfSignedDigits | src/utils/srtParser.js:11-14 | a `-` or `+` sign, then digits, then text that does not start with a digit, parse to the signed value of the digits |
| SrtParser.Seconds | src/utils/srtParser.js:16 | the time sum is finite exactly when all four fields are finite, else NaN |
| SrtParser.SecondsIsJsSum | src/utils/srtParser.js:16 | the sum equals `h*3600 + m*60 + s + ms/1000` in JavaScript arithmetic |
| SrtParser.ParseTime | src/utils/srtParser.js:6-17 | empty string gives 0; it throws exactly when a non-empty string has fewer than three `:` fields; otherwise NaN or a finite number |
| SrtParser.ParseTimeOfFields | src/utils/srtParser.js:8-16 | for digit fields, `h:m:s,ms` parses to the sum of the four `parseInt` values |
| SrtParser.ExampleFields | src/utils/srtParser.js:11-14 | `parseInt` reads the example fields `00`, `01` and `500` as 0, 1 and 500 |
| SrtParser.ParseTimeExample | src/utils/srtParser.js:3-5 | `00:00:01,500` is 1.5 seconds |
| SrtParser.ParseBlock | src/utils/srtParser.js:30-56 | fewer than three lines, or a second line without `-->`, is skipped; a block whose time halves both parse yields the cue `{start, end, end - start, text}` of the two parsed times and the joined text of lines three onward exactly when that text is not blank, and is skipped otherwise; it throws exactly when such a block's time line lacks `" --> "` or a half fails to parse |
| SrtParser.Outcomes | src/utils/srtParser.js:29 | one outcome per block, in block order |
| SrtParser.Collect | src/utils/srtParser.js:27-60 | the `results` of the `forEach` as a left fold over the block outcomes; a failure is the error of one of the blocks |
| SrtParser.CollectStep | src/utils/srtParser.js:29-58 | one more block: its cue, if any, is pushed after the earlier ones (lines 48-55); the first throw wins |
| SrtParser.CollectSucceeds | src/utils/srtParser.js:29-60 | parsing succeeds exactly when no block throws |
| SrtParser.CollectFailure | src/utils/srtParser.js:29-58 | a failed parse reports the error of the first throwing block |
| SrtParser.CollectAppend | src/utils/srtParser.js:29-58 | the cues of two runs of blocks are the cues of the first followed by those of the second |
| SrtParser.CollectFailedPrefix | src/utils/srtParser.js:29-58 | once a block has thrown, the later blocks change nothing |
| SrtParser.CollectAtMostOnePerBlock | src/utils/srtParser.js:49-54 | never more cues than blocks |
| SrtParser.CollectCuesFromBlocks | src/utils/srtParser.js:49-54 | every cue is the cue of some block |
| SrtParser.NormalizeNewlines | src/utils/srtParser.js:24 | no `\r` remains, and text without `\r` is unchanged |
| SrtParser.NormalizeNewlinesStep | src/utils/srtParser.js:24 | `\r\n` becomes one `\n`, a lone `\r` becomes `\n`, and every other character is kept, left to right |
| SrtParser.Blocks | src/utils/srtParser.js:25 | at least one block; no block contains a blank line `\n\n`; every block but the last, followed by one newline, still contains none (the cut is at the first of a run of newlines); and the blocks joined with blank lines give back the normalised text |
| SrtParser.Srt | src/utils/srtParser.js:22-61 | what `parseSRT` returns or throws: it succeeds exactly when no block throws |
| SrtParser.ParseBlocks | src/utils/srtParser.js:27-60 | the `forEach` loop returns exactly the left-to-right fold of the block outcomes |
| SrtParser.ParseSrt | src/utils/srtParser.js:22-61 | `parseSRT` equals normalise, cut and fold |
| SrtParser.SrtCues | src/utils/srtParser.js:22-61 | a successful parse has at most one cue per block, each cue with non-blank text and duration `end - start`, and each the cue of some block |
| ThumbnailGenerator.Classify | src/utils/thumbnailGenerator.js:26-40 | image exactly when the type starts with `image`; otherwise video exactly when the type starts with `video` or the lower-cased name ends in `.mov`, `.m4v`, `.mp4` or `.webm`; everything else, including no file, is unsupported |
| ThumbnailGenerator.ClassifyIgnoresNameCase | src/utils/thumbnailGenerator.js:32 | names equal up to ASCII case classify alike |
| ThumbnailGenerator.ClassifyImageFirst | src/utils/thumbnailGenerator.js:27-29 | an image type wins over the name |
| ThumbnailGenerator.ClassifyByName | src/utils/thumbnailGenerator.js:32-40 | with no type, a file is a video exactly when its lower-cased name ends in `.mov`, `.m4v`, `.mp4` or `.webm`, and never an image |
| ThumbnailGenerator.EffectiveDuration | src/utils/thumbnailGenerator.js:57-58 | never 0; a truthy fixed duration is chosen over the metadata and kept when finite, and an infinite one gives 30; without a truthy fixed duration a finite non-zero metadata duration is kept, else 30 |
| ThumbnailGenerator.EffectiveDurationFallback | src/utils/thumbnailGenerator.js:58 | without a usable metadata duration, an absent, NaN or zero fixed duration gives 30 |
| ThumbnailGenerator.SampleCount | src/utils/thumbnailGenerator.js:61-66 | `targetCount` wins; otherwise the count lies between `minThumbs` and `maxThumbs` |
| ThumbnailGenerator.SampleCountCovers | src/utils/thumbnailGenerator.js:61-66 | without a target the count is `min(maxThumbs, max(minThumbs, ceil(duration / step)))` with `step = max(1, secondsPerThumb)`: unless the maximum binds, `count` steps cover the duration, and unless the minimum binds, `count - 1` steps fall short of it |
| ThumbnailGenerator.CeilTimesStep | src/utils/thumbnailGenerator.js:65 | `ceil(d / step)` steps cover `d`, and one step fewer does not |
| ThumbnailGenerator.SampleCountExamples | src/utils/thumbnailGenerator.js:20-22 | with the defaults, 600 s gives 120 and 20 s gives 10 |
| ThumbnailGenerator.SampleCountMonotone | src/utils/thumbnailGenerator.js:61-66 | a longer video never gets fewer thumbnails |
| ThumbnailGenerator.SampleTime | src/utils/thumbnailGenerator.js:100 | every sample time lies at least 1 ms before the end |
| ThumbnailGenerator.SampleTimeSchedule | src/utils/thumbnailGenerator.js:98-100 | for a duration of at least 1 ms, sampling starts at 0, never goes back, and stays inside the video |
| ThumbnailGenerator.BackupTime | src/utils/thumbnailGenerator.js:82 | the backup frame is taken after 0, by 0.5 s, and inside the video |
| ThumbnailGenerator.Step | src/utils/thumbnailGenerator.js:102-110 | one sample pushes at most one blob and never alters earlier ones; a pushed blob is the new backup frame; nothing is pushed, and nothing changes, exactly when the capture failed and there is no backup |
| ThumbnailGenerator.LeadingFailuresSnoc | src/utils/thumbnailGenerator.js:102-110 | how a new sample changes the count of failures before the first good frame |
| ThumbnailGenerator.LatestFrameNone | src/utils/thumbnailGenerator.js:80-110 | there is no frame to fall back on exactly when there was no backup and every sample so far failed |
| ThumbnailGenerator.SampledShape | src/utils/thumbnailGenerator.js:98-111 | the backup carried is the latest good frame; the first `Skipped` samples push nothing; blob `j` is the latest good frame as of its sample |
| ThumbnailGenerator.SampledBackup | src/utils/thumbnailGenerator.js:107 | the backup the loop carries is always the latest good frame |
| ThumbnailGenerator.SampledCount | src/utils/thumbnailGenerator.js:102-110 | the samples before the first good frame push nothing when there is no backup; every other sample pushes exactly one blob |
| ThumbnailGenerator.SampledPushed | src/utils/thumbnailGenerator.js:102-110 | blob `j` is the latest good frame as of the sample that pushed it |
| ThumbnailGenerator.SampledLength | src/utils/thumbnailGenerator.js:98-111 | never more blobs than samples; exactly one per sample with a backup; none only when every capture failed |
| ThumbnailGenerator.Sampled | src/utils/thumbnailGenerator.js:98-111 | the capture loop as a fold of `Step` over the samples: never more blobs than samples, and a backup once there is one |
| ThumbnailGenerator.SampledJpeg | src/utils/thumbnailGenerator.js:106-109 | the loop pushes only JPEGs of captured frames |
| ThumbnailGenerator.AllFailed | src/utils/thumbnailGenerator.js:108-110 | all samples fail exactly when all of them precede the first success |
| ThumbnailGenerator.Shots | src/utils/thumbnailGenerator.js:98-103 | sample `i` is grabbed at attempt `i + 1` and time `t_i` |
| ThumbnailGenerator.Schedule | src/utils/thumbnailGenerator.js:98-103 | `max(count, 0)` samples, in index order |
| ThumbnailGenerator.Thumbnails | src/utils/thumbnailGenerator.js:16-117 | what `generateThumbnails` resolves to: classify, then for a video a fold of the samples; a video yields only JPEGs |
| ThumbnailGenerator.ThumbnailsOfNonVideo | src/utils/thumbnailGenerator.js:26-40 | an image is returned alone and unchanged; an unsupported file gives `[]` |
| ThumbnailGenerator.ThumbnailsOfVideo | src/utils/thumbnailGenerator.js:56-115 | at most `max(count, 1)` thumbnails; exactly `count` when the backup grab succeeds; with no samples and a backup, the backup alone (line 114); `[]` exactly when the backup grab and every sample fail |
| ThumbnailGenerator.GenerateThumbnails | src/utils/thumbnailGenerator.js:16-117 | the loop produces exactly the specified thumbnails |
| ThumbnailGenerator.OutcomeOf | src/utils/thumbnailGenerator.js:135-154 | only `seeked` resolves; an error or the timer rejects |
| ThumbnailGenerator.Settled | src/utils/thumbnailGenerator.js:133-160 | the outcome of a seek after a sequence of events: settled exactly when some event has arrived |
| ThumbnailGenerator.SettledByFirst | src/utils/thumbnailGenerator.js:133-154 | the first event settles the seek and every later one is ignored |
| ThumbnailGenerator.SeekTarget | src/utils/thumbnailGenerator.js:166 | the target is never negative and never past a known duration; a target already in range is kept; a non-positive time gives 0; a time at or past a positive finite duration gives that duration; a negative or minus-infinite duration gives 0 |
| ThumbnailGenerator.PendingSeek.Start | src/utils/thumbnailGenerator.js:131-168 | arms the timer, installs both handlers and moves the play head to the clamped target plus 0.0001 |
| ThumbnailGenerator.PendingSeek.Deliver | src/utils/thumbnailGenerator.js:135-160 | the first event clears the timer and the handlers and settles; later events change nothing |
| GifHelper.FrameSeconds | src/utils/gifHelper.js:37 | microseconds over 1,000,000, or 0.1 when unset or 0; positive for non-negative input |
| GifHelper.StartTime | src/utils/gifHelper.js:39-45 | the running total of the durations before frame `n`: with no negative duration it is non-negative and 0 only for the first frame |
| GifHelper.AccumulateFrames | src/utils/gifHelper.js:24-53 | one frame per image, in order, each starting at the sum of the earlier durations; the total is the sum of all |
| GifHelper.DecodeGifFrames | src/utils/gifHelper.js:1-54 | fails exactly without `ImageDecoder` or without a selected track; otherwise the accumulated timeline |
| GifHelper.StartTimeEnds | src/utils/gifHelper.js:25-45 | the first frame starts at 0; the total is the last start plus the last duration |
| GifHelper.StartTimeIncreasing | src/utils/gifHelper.js:39-45 | with no negative duration, start times strictly increase |
| GifHelper.StartTimeSplit | src/utils/gifHelper.js:45 | the total of two runs of frames is the sum of their totals |
| GifHelper.StartTimePrefix | src/utils/gifHelper.js:42 | a start time depends only on the frames before it |
| GifHelper.TimelineExample | src/utils/gifHelper.js:37-45 | 100 ms, 200 ms and an unset frame start at 0, 0.1 and 0.3 and last 0.4 s |
| MediaHelpers.Settle | src/utils/mediaHelpers.js:2 | only the first `resolve` takes effect |
| MediaHelpers.Handle | src/utils/mediaHelpers.js:18-78 | the four handlers: a resolved value is never replaced, metadata and errors clear the timer, and a cleared timer or a seek without its handler changes nothing |
| MediaHelpers.Run | src/utils/mediaHelpers.js:17-78 | the state after a sequence of events: the test seek is installed only after the timer is cleared, and while nothing is resolved the timer or the test seek is still pending |
| MediaHelpers.MediaDuration | src/utils/mediaHelpers.js:4-7 | an image is 3 seconds; nothing is resolved before any event |
| MediaHelpers.ResolvedIsFinal | src/utils/mediaHelpers.js:18-78 | once resolved, later events never change the value |
| MediaHelpers.TimerStaysCleared | src/utils/mediaHelpers.js:29 | metadata and errors clear the timer for good |
| MediaHelpers.TimeoutAfterLoadIgnored | src/utils/mediaHelpers.js:18-29 | after metadata or an error, the timer changes nothing |
| MediaHelpers.TimeoutOutcome | src/utils/mediaHelpers.js:15-26 | the timer alone gives null for QuickTime and 30 otherwise |
| MediaHelpers.ErrorOutcome | src/utils/mediaHelpers.js:70-78 | an error first gives null for QuickTime and 5 otherwise |
| MediaHelpers.AudioOutcome | src/utils/mediaHelpers.js:32-35 | audio resolves to the metadata duration |
| MediaHelpers.VideoOutcome | src/utils/mediaHelpers.js:37-66 | other media wait for the test seek: width 0 is null, else the reported duration |
| MediaHelpers.EarlySeekIgnored | src/utils/mediaHelpers.js:40 | a seek before metadata finds no handler |
| FileBridge.Put | src/utils/fileBridge.js:18-21 | the key `file` holds the new value and every other key is kept |
| FileBridge.Peek | src/utils/fileBridge.js:27 | a missing key reads as undefined |
| FileBridge.Take | src/utils/fileBridge.js:27-30 | a truthy value under `file` is deleted; a falsy or missing one leaves the store as it was; every other key keeps its value |
| FileBridge.PutThenTake | src/utils/fileBridge.js:17-31 | what was put is read back; a truthy file is gone afterwards; a falsy one stays |
| FileBridge.PutReplaces | src/utils/fileBridge.js:20 | a second put replaces the first |
| FileBridge.TakeEmpty | src/utils/fileBridge.js:25-31 | reading an empty slot gives undefined and changes nothing |
| FileBridge.BridgeStore.SetPendingFile | src/utils/fileBridge.js:18-21 | the store becomes `Put` of the old store |
| FileBridge.BridgeStore.GetPendingFile | src/utils/fileBridge.js:25-31 | returns the slot's value; the store becomes `Take` of the old store |
| FileBridge.HandOver | src/utils/fileBridge.js:17-31 | a handed-over file is picked up once, and a second read yields undefined |
| ProjectManager.Mint | src/utils/projectManager.js:64 | `n` fresh object URLs, numbered in creation order |
| ProjectManager.Minted | src/utils/projectManager.js:58-71 | an item without a file creates no URL; one with a file creates one per thumbnail and at most two more |
| ProjectManager.RestoreItem | src/utils/projectManager.js:56-83 | no file: unchanged; with a file: other properties, file and thumbnails kept; `fileUrl`/`url` fresh exactly when they were truthy, created after the thumbnail URLs and `fileUrl` before `url`; `thumbnailUrls` the fresh thumbnail URLs when non-empty, else the old list or `[]` |
| ProjectManager.RestoreItemHandles | src/utils/projectManager.js:56-83 | restoring refers only to URLs already created |
| ProjectManager.RestoreList | src/utils/projectManager.js:53-84 | same length; the counter only moves forward |
| ProjectManager.RestoreListKeeps | src/utils/projectManager.js:56-83 | every restored item keeps its other properties, its file and its thumbnails, and an item without a file comes back unchanged |
| ProjectManager.RestoreAssets | src/utils/projectManager.js:54 | a missing list restores to `[]` without creating URLs |
| ProjectManager.RestoreListNext | src/utils/projectManager.js:56 | the counter moves past exactly the URLs the items create |
| ProjectManager.RestoreListAt | src/utils/projectManager.js:56 | item `i` is item `i` restored after the URLs of the items before it |
| ProjectManager.RestoredUrlsDistinct | src/utils/projectManager.js:70-71 | two items of one list never share a `fileUrl`/`url` handle |
| ProjectManager.RestoredFreshAt | src/utils/projectManager.js:70-71 | the URLs of item `i` are created after those of the items before it and before those of the items after it |
| ProjectManager.RestoreListWithoutFiles | src/utils/projectManager.js:81-82 | items without a file come back exactly as stored |
| ProjectManager.RestoreListHandles | src/utils/projectManager.js:53-84 | restoring a list refers only to URLs already created |
| ProjectManager.Reload | src/utils/projectManager.js:87-90 | the four lists are restored main, audio, text, library, each keeping its length |
| ProjectManager.ReloadKeeps | src/utils/projectManager.js:53-90 | in all four reloaded lists every item keeps its other properties, its file and its thumbnails, in order, and items without a file come back unchanged |
| ProjectManager.ReloadHandles | src/utils/projectManager.js:87-96 | after reloading, every handle in the stores has been created |
| ProjectManager.Project.constructor | src/utils/projectManager.js:119 | empty lists, settings 1280×720 at 16:9 (the values `clearProject` resets to), nothing saved |
| ProjectManager.Project.Save | src/utils/projectManager.js:22-43 | one record of the current lists and settings replaces whatever was under `auto_save_v1`; the stores are unchanged |
| ProjectManager.Project.Load | src/utils/projectManager.js:46-104 | false with nothing changed when no record exists; else every store is set from the restored record, and the settings only when the record has them |
| ProjectManager.Project.Clear | src/utils/projectManager.js:107-120 | the record is deleted, the four lists emptied, the settings reset to 1280×720 at 16:9 |
| ProjectManager.SaveThenLoad | src/utils/projectManager.js:22-104 | a save followed by a load finds the record and returns the settings; each of the four lists comes back with its length and order, every item keeping its other properties, file and thumbnails, and items without a file unchanged |
| ProjectManager.ClearThenLoad | src/utils/projectManager.js:46-50 | after clearing, a load finds nothing and the project stays empty |

## Left out

- I/O is not modelled. This covers fetching the GIF, `ImageDecoder`, canvases, `toBlob` encoding, `console` and `alert`. Frames and decoded images are opaque identifiers.
- Timers are not modelled as time. A timer is an event in the sequence of events delivered.
- A promise that never settles is not modelled. Such a seek, or a probe that never gets an event, appears only as a pending state (`None`).
- Floating point is exact real arithmetic. IEEE-754 rounding of durations, times and sums is not modelled, nor is `-0`.
- The canvas size computation in `generateThumbnails` is not modelled: `thumbWidth`, `Math.round` and the re-sizing after the backup seek. It does not affect which frames are returned.
- `toBlob` resolving with null (a failed encode) is not modelled. A grab either yields a frame or fails as a whole.
- The options of `generateThumbnails` are taken as numbers. A `targetCount` that is not an integer, or options of other types, are not modelled.
- In `getMediaDuration`, the WebM branch moves the play head to 1e7 before resolving. Both branches resolve with the same duration, so that move is not modelled. The canvas pixel test is not modelled either, since its errors are caught.
- The element type chosen in `getMediaDuration` (video or audio) is not modelled, since only the events it delivers matter.
- `toLowerCase` is modelled for ASCII letters only.
- In the project store, `fileUrl`, `url` and `thumbnailUrls` hold URLs, `thumbnails` holds an array, and `file` holds a `Blob`/`File`. Values of other types are not modelled, nor is a record that is not an object.
- `initDB` and the database and store names are not modelled. The object store is a map from keys to records.
- `Date.now()` is a parameter of `Project.Save`.
- `src/stores/timelineStore.js` exports two of the five stores, `mainTrackClips` and `audioTrackClips`, both starting as `[]`. The other three (`textTrackClips`, `uploadedFiles`, `projectSettings`) are only imported at `src/utils/projectManager.js:3`, and no file of the repository here gives their initial values. `Project.constructor` therefore starts from empty lists and the 1280×720 16:9 settings that `clearProject` resets to. This is the model's choice, not a value read from the source.
- The Discord API route and the Astro configuration are not part of this model.
- A project saved in one browser session and loaded in a later one is not modelled. Object URLs are numbered by one counter, so a handle created before a save is never re-created after it.
